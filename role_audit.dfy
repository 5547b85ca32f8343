/** The audit of cek2role.js: extract the uid of every member reference with
    `/^uid=([^,]+)/i`, index uids by the set of labels of the groups that
    reference them, and keep the uids with exactly two labels. */
module RoleAudit {
  import opened JsData

  /** The first four characters are `uid=` in any letter case. Under the `i`
      flag without `u`, JavaScript folds a character by upper-casing it only
      when that does not turn a non-ASCII character into an ASCII one, so
      only the ASCII letters themselves match here. */
  predicate UidPrefix(s: string)
  {
    |s| >= 4 &&
    (s[0] == 'u' || s[0] == 'U') && (s[1] == 'i' || s[1] == 'I') &&
    (s[2] == 'd' || s[2] == 'D') && s[3] == '='
  }

  /** The length of the longest prefix of `s` without a comma: where the
      greedy `[^,]+` stops. */
  function CommaFreeLength(s: string): (n: nat)
    ensures n <= |s|
    ensures forall i :: 0 <= i < n ==> s[i] != ','
    ensures n < |s| ==> s[n] == ','
  {
    if s == [] || s[0] == ',' then 0
    else
      var rest := CommaFreeLength(s[1..]);
      assert forall i :: 1 <= i < 1 + rest ==> s[i] == s[1..][i - 1];
      1 + rest
  }

  /** `u` is what `/^uid=([^,]+)/i` captures from `s`: `s` starts with `uid=`
      (any case) followed by `u`, a non-empty comma-free run that ends at the
      first comma or at the end of `s`. */
  ghost predicate Captures(s: string, u: string)
  {
    UidPrefix(s) && u != [] && ',' !in u && 4 + |u| <= |s| && s[4..4 + |u|] == u &&
    (|s| == 4 + |u| || s[4 + |u|] == ',')
  }

  /** `extractUid(dn)` (cek2role.js:30-34). */
  function ExtractUid(dn: Member): (r: Option<string>)
    ensures !dn.Str? || dn.s == "" ==> r == None
    ensures r.Some? ==> dn.Str? && Captures(dn.s, r.value)
    ensures r.None? ==> forall u :: !(dn.Str? && Captures(dn.s, u))
  {
    if !Truthy(dn) || !dn.Str? then None
    else
      var s := dn.s;
      if !UidPrefix(s) then None
      else
        var n := CommaFreeLength(s[4..]);
        if n == 0 then None
        else
          var u := s[4..4 + n];
          assert forall i :: 0 <= i < |u| ==> u[i] == s[4..][i];
          Some(u)
  }

  /** The capture of a match is unique. */
  lemma {:induction false} CapturesUnique(s: string, u: string, v: string)
    requires Captures(s, u) && Captures(s, v)
    ensures u == v
  {
    assert |u| == |v|;
    assert u == s[4..4 + |u|] == v;
  }

  /** `extractUid` returns `u` exactly when the regular expression captures
      `u`; every uid it returns is non-empty and comma-free. */
  lemma {:induction false} ExtractUidExact(dn: Member, u: string)
    ensures ExtractUid(dn) == Some(u) <==> dn.Str? && Captures(dn.s, u)
    ensures ExtractUid(dn) == Some(u) ==> u != "" && ',' !in u
  {
    if dn.Str? && Captures(dn.s, u) {
      CapturesUnique(dn.s, u, ExtractUid(dn).value);
    }
  }

  /** The label a group contributes: `g.cn || g.dn || "UNKNOWN_GROUP"`. */
  function Label(g: Group): (name: string)
    ensures name != ""
  {
    if FieldTruthy(g.cn) then g.cn.value
    else if FieldTruthy(g.dn) then g.dn.value
    else "UNKNOWN_GROUP"
  }

  /** The member list the loop walks (cek2role.js:46-50): an array as it is,
      a truthy single value wrapped in a one-element list, else nothing. */
  function Members(g: Group): seq<Member>
  {
    match g.memberUid
    case Many(items) => items
    case One(m) => if Truthy(m) then [m] else []
    case Missing => []
  }

  /** Some member of `ms` extracts to `u`, defined on prefixes in the order
      the inner loop visits the members. */
  predicate Mentions(ms: seq<Member>, u: string)
  {
    |ms| > 0 && (Mentions(ms[..|ms| - 1], u) || ExtractUid(ms[|ms| - 1]) == Some(u))
  }

  /** `Mentions` holds exactly when some position of `ms` extracts to `u`. */
  lemma {:induction false} MentionsExists(ms: seq<Member>, u: string)
    ensures Mentions(ms, u) <==> exists j :: 0 <= j < |ms| && ExtractUid(ms[j]) == Some(u)
  {
    if ms != [] {
      var init := ms[..|ms| - 1];
      MentionsExists(init, u);
      assert forall j :: 0 <= j < |init| ==> init[j] == ms[j];
    }
  }

  /** A uid mentioned by a prefix is mentioned by the whole list. */
  lemma MentionsPrefix(ms: seq<Member>, n: nat, u: string)
    requires n <= |ms| && Mentions(ms[..n], u)
    ensures Mentions(ms, u)
  {
    MentionsExists(ms[..n], u);
    var j :| 0 <= j < n && ExtractUid(ms[..n][j]) == Some(u);
    assert ms[..n][j] == ms[j];
    MentionsExists(ms, u);
  }

  /** In terms of the raw field: a falsy single value mentions nobody, just as
      an absent field does, and a truthy one is a list of one. */
  lemma GroupMentions(g: Group, u: string)
    ensures g.memberUid.Missing? ==> !Mentions(Members(g), u)
    ensures g.memberUid.One? ==> (Mentions(Members(g), u) <==> ExtractUid(g.memberUid.value) == Some(u))
    ensures g.memberUid.Many? ==> (Mentions(Members(g), u) <==>
      exists j :: 0 <= j < |g.memberUid.items| && ExtractUid(g.memberUid.items[j]) == Some(u))
  {
    if g.memberUid.One? {
      assert Members(g)[..0] == [];
    } else if g.memberUid.Many? {
      MentionsExists(g.memberUid.items, u);
    }
  }

  /** The labels `uidRoles[u]` holds once the records `groups` have been
      scanned, defined on prefixes in the order the loop visits them. */
  function RolesOf(groups: seq<Group>, u: string): set<string>
  {
    if groups == [] then {}
    else
      var last := groups[|groups| - 1];
      RolesOf(groups[..|groups| - 1], u) + (if Mentions(Members(last), u) then {Label(last)} else {})
  }

  /** Some record of `groups` has a member extracting to `u`. */
  ghost predicate Referenced(groups: seq<Group>, u: string)
  {
    exists k :: 0 <= k < |groups| && Mentions(Members(groups[k]), u)
  }

  /** A uid's set holds exactly the labels of the records that reference it. */
  lemma {:induction false} RolesOfExact(groups: seq<Group>, u: string, name: string)
    ensures name in RolesOf(groups, u) <==>
      exists k :: 0 <= k < |groups| && Mentions(Members(groups[k]), u) && Label(groups[k]) == name
  {
    if groups != [] {
      var init := groups[..|groups| - 1];
      RolesOfExact(init, u, name);
      assert forall k :: 0 <= k < |init| ==> groups[k] == init[k];
      if name in RolesOf(init, u) {
        var k :| 0 <= k < |init| && Mentions(Members(init[k]), u) && Label(init[k]) == name;
        assert groups[k] == init[k];
      }
    }
  }

  /** A uid has a non-empty set exactly when some record references it. */
  lemma {:induction false} RolesOfNonEmpty(groups: seq<Group>, u: string)
    ensures RolesOf(groups, u) != {} <==> Referenced(groups, u)
  {
    if Referenced(groups, u) {
      var k :| 0 <= k < |groups| && Mentions(Members(groups[k]), u);
      RolesOfExact(groups, u, Label(groups[k]));
    }
    if RolesOf(groups, u) != {} {
      var name :| name in RolesOf(groups, u);
      RolesOfExact(groups, u, name);
    }
  }

  /** How many records reference `u`. */
  function ReferencingCount(groups: seq<Group>, u: string): nat
  {
    if groups == [] then 0
    else
      ReferencingCount(groups[..|groups| - 1], u) + (if Mentions(Members(groups[|groups| - 1]), u) then 1 else 0)
  }

  /** A uid's set is never larger than the number of records referencing it:
      a repeated label leaves the set as it was. */
  lemma {:induction false} RolesOfBound(groups: seq<Group>, u: string)
    ensures |RolesOf(groups, u)| <= ReferencingCount(groups, u)
  {
    if groups != [] {
      RolesOfBound(groups[..|groups| - 1], u);
    }
  }

  /** Concatenating record lists unites the sets. */
  lemma {:induction false} RolesOfAppend(gs: seq<Group>, hs: seq<Group>, u: string)
    ensures RolesOf(gs + hs, u) == RolesOf(gs, u) + RolesOf(hs, u)
    decreases |hs|
  {
    if hs == [] {
      assert gs + hs == gs;
    } else {
      var hInit := hs[..|hs| - 1];
      assert (gs + hs)[..|gs + hs| - 1] == gs + hInit;
      assert (gs + hs)[|gs + hs| - 1] == hs[|hs| - 1];
      RolesOfAppend(gs, hInit, u);
    }
  }

  /** Listing every record twice changes no uid's set. */
  lemma RolesOfDuplicated(gs: seq<Group>, u: string)
    ensures RolesOf(gs + gs, u) == RolesOf(gs, u)
  {
    RolesOfAppend(gs, gs, u);
  }

  /** `updated` is `base` with `cn` added to the set of every uid mentioned
      in `ms`, each set created on first use, and nothing else changed. */
  ghost predicate AddedTo(updated: map<string, set<string>>, base: map<string, set<string>>, ms: seq<Member>, cn: string)
  {
    && (forall u :: u in updated <==> u in base || Mentions(ms, u))
    && (forall u :: u in updated ==>
          updated[u] == (if u in base then base[u] else {}) + (if Mentions(ms, u) then {cn} else {}))
  }

  /** One pass of the inner loop body extends `AddedTo` by one member. */
  lemma AddedToStep(updated: map<string, set<string>>, base: map<string, set<string>>, ms: seq<Member>, j: nat, cn: string)
    requires j < |ms| && AddedTo(updated, base, ms[..j], cn)
    ensures var uid := ExtractUid(ms[j]);
      AddedTo(if uid.Some? then updated[uid.value := (if uid.value in updated then updated[uid.value] else {}) + {cn}]
              else updated, base, ms[..j + 1], cn)
  {
    assert ms[..j + 1][..j] == ms[..j];
  }

  /** The inner loop of `main` (cek2role.js:52-58) for one group: every
      member that extracts to a uid gets the group's label `cn` added to that
      uid's set, the set being created on first use. */
  method AddMembers(uidRoles: map<string, set<string>>, members: seq<Member>, cn: string)
    returns (updated: map<string, set<string>>)
    ensures forall u :: u in updated <==> u in uidRoles || Mentions(members, u)
    ensures forall u :: u in updated ==>
      updated[u] == (if u in uidRoles then uidRoles[u] else {}) + (if Mentions(members, u) then {cn} else {})
  {
    updated := uidRoles;
    for j := 0 to |members|
      invariant AddedTo(updated, uidRoles, members[..j], cn)
    {
      var uid := ExtractUid(members[j]);
      AddedToStep(updated, uidRoles, members, j, cn);
      if uid.Some? {
        var roles := if uid.value in updated then updated[uid.value] else {};
        updated := updated[uid.value := roles + {cn}];
      }
    }
    assert members[..|members|] == members;
  }

  /** The index loop of `main` (cek2role.js:42-59), with the dictionary as a
      map from uid to its set of labels. */
  method BuildIndex(groups: seq<Group>) returns (uidRoles: map<string, set<string>>)
    ensures forall u :: u in uidRoles <==> Referenced(groups, u)
    ensures forall u :: u in uidRoles ==> uidRoles[u] == RolesOf(groups, u)
  {
    uidRoles := map[];
    for i := 0 to |groups|
      invariant forall u :: u in uidRoles <==> RolesOf(groups[..i], u) != {}
      invariant forall u :: u in uidRoles ==> uidRoles[u] == RolesOf(groups[..i], u)
    {
      var g := groups[i];
      var cn := Label(g);
      uidRoles := AddMembers(uidRoles, Members(g), cn);
      assert groups[..i + 1][..i] == groups[..i];
    }
    assert groups[..|groups|] == groups;
    forall u {
      RolesOfNonEmpty(groups, u);
    }
  }

  /** The properties every plain object `{}` inherits from `Object.prototype`
      in Node.js. `uidRoles[name]` is truthy for each of them before any own
      key is set, and none of them has an `add` method. */
  const PrototypeKeys: set<string> := {
    "constructor", "__defineGetter__", "__defineSetter__", "hasOwnProperty",
    "__lookupGetter__", "__lookupSetter__", "isPrototypeOf", "propertyIsEnumerable",
    "toString", "valueOf", "__proto__", "toLocaleString"
  }

  /** How the index loop ends when `uidRoles` is the plain object of the
      source: with the index, or with the TypeError thrown by
      `uidRoles[uid].add(cn)` on an inherited property. */
  datatype IndexRun = Indexed(index: map<string, set<string>>) | TypeErrorOn(uid: string)

  /** The inner loop over one group's members, with the property lookup of a
      plain object whose own keys are those of `uidRoles` and whose inherited
      property names are `inherited`: an own key holds a Set; an inherited
      name holds a function or `Object.prototype`, so `!uidRoles[uid]` is
      false and `add` is not a function. */
  method AddMembersAsWritten(uidRoles: map<string, set<string>>, inherited: set<string>, members: seq<Member>, cn: string)
    returns (run: IndexRun)
    requires forall u :: u in uidRoles ==> u !in inherited
    ensures run.TypeErrorOn? ==> run.uid in inherited && Mentions(members, run.uid)
    ensures run.TypeErrorOn? ==> exists j :: 0 <= j < |members| && ExtractUid(members[j]) == Some(run.uid) &&
                                             (forall u :: u in inherited ==> !Mentions(members[..j], u))
    ensures run.Indexed? <==> forall u :: u in inherited ==> !Mentions(members, u)
    ensures run.Indexed? ==> forall u :: u in run.index ==> u !in inherited
    ensures run.Indexed? ==> forall u :: u in run.index <==> u in uidRoles || Mentions(members, u)
    ensures run.Indexed? ==> forall u :: u in run.index ==>
      run.index[u] == (if u in uidRoles then uidRoles[u] else {}) + (if Mentions(members, u) then {cn} else {})
  {
    var own := uidRoles;
    for j := 0 to |members|
      invariant forall u :: u in own ==> u !in inherited
      invariant forall u :: u in inherited ==> !Mentions(members[..j], u)
      invariant AddedTo(own, uidRoles, members[..j], cn)
    {
      var uid := ExtractUid(members[j]);
      AddedToStep(own, uidRoles, members, j, cn);
      assert members[..j + 1][..j] == members[..j];
      if uid.Some? {
        if uid.value in own {
          own := own[uid.value := own[uid.value] + {cn}];
        } else if uid.value in inherited {
          MentionsPrefix(members, j + 1, uid.value);
          ghost var first := j;
          assert ExtractUid(members[first]) == Some(uid.value) &&
            forall u :: u in inherited ==> !Mentions(members[..first], u);
          return TypeErrorOn(uid.value);
        } else {
          own := own[uid.value := {cn}];
        }
      }
    }
    assert members[..|members|] == members;
    run := Indexed(own);
  }

  /** The index loop of `main` (cek2role.js:42-59) as written, over a fresh
      object that inherits the property names `inherited` (`PrototypeKeys`
      for the `{}` of the source): it aborts exactly when some member names
      a uid that is an inherited property, and otherwise builds the same
      index as `BuildIndex`. */
  method BuildIndexAsWritten(groups: seq<Group>, inherited: set<string>) returns (run: IndexRun)
    ensures run.TypeErrorOn? <==> exists u :: u in inherited && Referenced(groups, u)
    ensures run.TypeErrorOn? ==> run.uid in inherited && Referenced(groups, run.uid)
    ensures run.Indexed? ==> forall u :: u in run.index <==> Referenced(groups, u)
    ensures run.Indexed? ==> forall u :: u in run.index ==> run.index[u] == RolesOf(groups, u)
  {
    var uidRoles := map[];
    for i := 0 to |groups|
      invariant forall u :: u in uidRoles ==> u !in inherited
      invariant forall u :: u in uidRoles <==> RolesOf(groups[..i], u) != {}
      invariant forall u :: u in uidRoles ==> uidRoles[u] == RolesOf(groups[..i], u)
    {
      var g := groups[i];
      var cn := Label(g);
      run := AddMembersAsWritten(uidRoles, inherited, Members(g), cn);
      if run.TypeErrorOn? {
        assert Referenced(groups, run.uid);
        return;
      }
      uidRoles := run.index;
      assert groups[..i + 1][..i] == groups[..i];
    }
    assert groups[..|groups|] == groups;
    forall u {
      RolesOfNonEmpty(groups, u);
    }
    run := Indexed(uidRoles);
  }

  /** A single member reference `uid=constructor,ou=users` is enough: the
      name is inherited by every plain object and the record references it,
      so `BuildIndexAsWritten` ends with a TypeError on that input while
      `BuildIndex` indexes the uid under the group's label. */
  lemma PrototypeNameAbortsAudit()
    ensures var groups := [Group(Some("admins"), None, None, Many([Str("uid=constructor,ou=users")]))];
      "constructor" in PrototypeKeys && Referenced(groups, "constructor") &&
      RolesOf(groups, "constructor") == {"admins"}
  {
    var g := Group(Some("admins"), None, None, Many([Str("uid=constructor,ou=users")]));
    ConstructorReference();
    SingleMemberGroup(g, Str("uid=constructor,ou=users"), "constructor");
    assert "constructor" in PrototypeKeys;
  }

  /** A single record whose only member extracts to `u` gives `u` exactly
      that record's label. */
  lemma {:induction false} SingleMemberGroup(g: Group, m: Member, u: string)
    requires g.memberUid == Many([m]) && ExtractUid(m) == Some(u)
    ensures Referenced([g], u) && RolesOf([g], u) == {Label(g)}
  {
    assert Members(g) == [m] && [m][..0] == [];
    assert Mentions(Members([g][0]), u);
    assert [g][..0] == [];
  }

  /** A lone record whose only member extracts to an inherited name `u`
      makes the loop as written end in the TypeError on `u`. */
  method SingleReferenceRun(g: Group, m: Member, u: string, inherited: set<string>) returns (run: IndexRun)
    requires g.memberUid == Many([m]) && ExtractUid(m) == Some(u) && u in inherited
    ensures run == TypeErrorOn(u)
  {
    SingleMemberGroup(g, m, u);
    run := BuildIndexAsWritten([g], inherited);
    assert run.TypeErrorOn?;
    var k :| 0 <= k < |[g]| && Mentions(Members([g][k]), run.uid);
    assert [g][k] == g && Members(g) == [m] && [m][..0] == [];
    assert !Mentions([m][..0], run.uid);
    assert ExtractUid(m) == Some(run.uid);
  }

  /** Running the loop as written on the one-record input of
      `PrototypeNameAbortsAudit` ends in the TypeError on `constructor`. */
  method PrototypeNameRun() returns (run: IndexRun)
    ensures run == TypeErrorOn("constructor")
  {
    var m := Str("uid=constructor,ou=users");
    ConstructorReference();
    assert "constructor" in PrototypeKeys;
    run := SingleReferenceRun(Group(Some("admins"), None, None, Many([m])), m, "constructor", PrototypeKeys);
  }

  lemma ConstructorReference()
    ensures ExtractUid(Str("uid=constructor,ou=users")) == Some("constructor")
  {
    var s := "uid=constructor,ou=users";
    assert UidPrefix(s);
    assert s[4..15] == "constructor";
    assert s[15] == ',';
    assert ',' !in "constructor";
    assert Captures(s, "constructor");
    ExtractUidExact(Str(s), "constructor");
  }

  /** The filter and map at cek2role.js:62-64, on the entries of the index. */
  function ExactlyTwo(uidRoles: map<string, set<string>>): map<string, set<string>>
  {
    map u | u in uidRoles && |uidRoles[u]| == 2 :: uidRoles[u]
  }

  /** The audit's result: exactly the uids whose set has two labels, each
      with those labels. */
  method Audit(groups: seq<Group>) returns (result: map<string, set<string>>)
    ensures forall u :: u in result <==> |RolesOf(groups, u)| == 2
    ensures forall u :: u in result ==> result[u] == RolesOf(groups, u) && |result[u]| == 2
  {
    var uidRoles := BuildIndex(groups);
    result := ExactlyTwo(uidRoles);
    forall u | u !in uidRoles
      ensures RolesOf(groups, u) == {}
    {
      RolesOfNonEmpty(groups, u);
    }
  }
}
