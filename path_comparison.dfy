/** Where the two role paths agree and where they do not: index.js counts
    records whose array holds the literal prefix `uid=<uid>,`; cek2role.js
    extracts uids case-insensitively from arrays and single values and
    collapses identical labels. */
module PathComparison {
  import opened JsData
  import opened RoleCheck
  import opened RoleAudit

  /** For a non-empty, comma-free uid, a reference starting with
      `uid=<uid>,` is one from which `extractUid` takes exactly that uid. */
  lemma NeedleImpliesExtract(m: string, uid: string)
    requires uid != "" && ',' !in uid
    requires Needle(uid) <= m
    ensures ExtractUid(Str(m)) == Some(uid)
  {
    assert m[..|Needle(uid)|] == Needle(uid);
    assert m[4..4 + |uid|] == Needle(uid)[4..4 + |uid|] == uid;
    assert m[4 + |uid|] == Needle(uid)[4 + |uid|] == ',';
    ExtractUidExact(Str(m), uid);
  }

  /** Conversely, a uid extracted from a reference that spells `uid=` in
      lower case and has a comma after the uid satisfies the literal prefix
      test. */
  lemma {:induction false} ExtractImpliesNeedle(m: string, uid: string)
    requires ExtractUid(Str(m)) == Some(uid)
    requires m[..4] == "uid="
    requires 4 + |uid| < |m|
    ensures Needle(uid) <= m
  {
    ExtractUidExact(Str(m), uid);
    assert m[4..4 + |uid|] == uid;
    assert m[..|Needle(uid)|] == m[..4] + m[4..4 + |uid|] + [m[4 + |uid|]];
  }

  /** Listing the same records twice doubles the count of index.js but
      leaves every set of cek2role.js unchanged. */
  lemma DuplicatedRecordsDiverge(gs: seq<Group>, uid: string)
    ensures |UserGroups(gs + gs, uid)| == 2 * |UserGroups(gs, uid)|
    ensures RolesOf(gs + gs, uid) == RolesOf(gs, uid)
  {
    UserGroupsAppend(gs, gs, uid);
    RolesOfDuplicated(gs, uid);
  }

  /** A `memberUid` holding a single string `uid=<uid>,...` (rather than an
      array) is ignored by index.js but indexed by cek2role.js. */
  lemma SingleStringDiverges(name: string, uid: string, ref: string)
    requires name != "" && uid != "" && ',' !in uid && Needle(uid) <= ref
    ensures var g := Group(Some(name), None, None, One(Str(ref)));
      UserGroups([g], uid) == [] && RolesOf([g], uid) == {name}
  {
    var g := Group(Some(name), None, None, One(Str(ref)));
    NonArrayMemberUidNeverMatches(g, uid);
    NeedleImpliesExtract(ref, uid);
    assert Members(g)[0] == Str(ref);
    assert [g][..0] == [];
  }

  /** Two groups with the labels `a` and `b`, each listing the reference
      `ref` that starts with `uid=<uid>,`. */
  function TwoGroups(a: string, b: string, ref: string): seq<Group>
  {
    [Group(Some(a), None, None, Many([Str(ref)])), Group(Some(b), None, None, Many([Str(ref)]))]
  }

  lemma TwoGroupsCount(a: string, b: string, uid: string, ref: string)
    requires Needle(uid) <= ref
    ensures |UserGroups(TwoGroups(a, b, ref), uid)| == 2
  {
    var gs := TwoGroups(a, b, ref);
    assert Matches(gs[0], uid) && Matches(gs[1], uid) by {
      assert gs[0].memberUid.items[0] == Str(ref) && gs[1].memberUid.items[0] == Str(ref);
    }
    assert [gs[0]][..0] == [];
    assert UserGroups([gs[0]], uid) == [Summary(gs[0])];
    assert gs[..1] == [gs[0]];
  }

  lemma TwoGroupsRoles(a: string, b: string, uid: string, ref: string)
    requires a != "" && b != "" && uid != "" && ',' !in uid && Needle(uid) <= ref
    ensures RolesOf(TwoGroups(a, b, ref), uid) == {a, b}
  {
    var gs := TwoGroups(a, b, ref);
    NeedleImpliesExtract(ref, uid);
    assert Mentions(Members(gs[0]), uid) by {
      assert Members(gs[0])[0] == Str(ref);
    }
    assert Mentions(Members(gs[1]), uid) by {
      assert Members(gs[1])[0] == Str(ref);
    }
    assert [gs[0]][..0] == [];
    assert RolesOf([gs[0]], uid) == {a};
    assert gs[..1] == [gs[0]];
  }

  /** Two distinct groups listing `uid=<uid>,...`: index.js counts two
      records, so `secondRole` is set, and cek2role.js gives the uid both
      labels, so the audit reports it with exactly those two. */
  lemma TwoGroupsAgree(a: string, b: string, uid: string, ref: string)
    requires a != "" && b != "" && a != b && uid != "" && ',' !in uid && Needle(uid) <= ref
    ensures |UserGroups(TwoGroups(a, b, ref), uid)| == 2
    ensures RolesOf(TwoGroups(a, b, ref), uid) == {a, b} && |RolesOf(TwoGroups(a, b, ref), uid)| == 2
  {
    TwoGroupsCount(a, b, uid, ref);
    TwoGroupsRoles(a, b, uid, ref);
  }
}
