/** The `check-roles` path of index.js: find the group records whose
    `memberUid` array holds a reference starting with `uid=<uid>,`, count
    them, and decide `secondRole`. */
module RoleCheck {
  import opened JsData

  /** The body of `GET /groups` as JSON: an array of records, a single
      record object, or anything else (null, a string, a number, ...). */
  datatype Payload = ArrayBody(records: seq<Group>) | ObjectBody(record: Group) | ScalarBody

  /** What `fetchAllGroups` hands on after normalising the payload. */
  function NormalizeGroups(data: Payload): (groups: seq<Group>)
    ensures data.ArrayBody? ==> groups == data.records
    ensures data.ObjectBody? ==> groups == [data.record]
    ensures data.ScalarBody? ==> groups == []
  {
    match data
    case ArrayBody(records) => records
    case ObjectBody(record) => [record]
    case ScalarBody => []
  }

  /** The literal prefix a member reference must start with. */
  function Needle(uid: string): string
  {
    "uid=" + uid + ","
  }

  /** `typeof m === "string" && m.startsWith(needle)`. */
  predicate StartsWith(m: Member, needle: string)
  {
    m.Str? && needle <= m.s
  }

  /** `members.some(...)` with the predicate above. */
  function SomeStartsWith(members: seq<Member>, needle: string): (found: bool)
    ensures found <==> exists i :: 0 <= i < |members| && StartsWith(members[i], needle)
  {
    if members == [] then false
    else if StartsWith(members[0], needle) then true
    else
      var rest := SomeStartsWith(members[1..], needle);
      assert forall i :: 1 <= i < |members| ==> members[i] == members[1..][i - 1];
      rest
  }

  /** `Array.isArray(g.memberUid) ? g.memberUid : []`. */
  function ArrayMembers(f: MemberUid): seq<Member>
  {
    if f.Many? then f.items else []
  }

  /** Whether a record is kept for `uid`: only an array `memberUid` is looked
      at, and one of its strings must start with `uid=<uid>,`, letter case
      and trailing comma included. */
  predicate Matches(g: Group, uid: string)
    ensures Matches(g, uid) <==>
      g.memberUid.Many? &&
      exists i :: 0 <= i < |g.memberUid.items| && g.memberUid.items[i].Str? &&
                  ("uid=" + uid + ",") <= g.memberUid.items[i].s
  {
    SomeStartsWith(ArrayMembers(g.memberUid), Needle(uid))
  }

  /** The entry pushed for a kept record: exactly its `cn`, `dn` and
      `gidNumber`. */
  datatype GroupSummary = GroupSummary(cn: Option<string>, dn: Option<string>, gidNumber: Option<int>)

  function Summary(g: Group): GroupSummary
  {
    GroupSummary(g.cn, g.dn, g.gidNumber)
  }

  /** The entries `extractUserGroupsFromList` returns, defined on prefixes of
      the record list in the order the loop visits them. */
  function UserGroups(groups: seq<Group>, uid: string): seq<GroupSummary>
  {
    if groups == [] then []
    else
      var last := groups[|groups| - 1];
      UserGroups(groups[..|groups| - 1], uid) + (if Matches(last, uid) then [Summary(last)] else [])
  }

  /** The positions of the kept records, in increasing order. */
  ghost function KeptIndices(groups: seq<Group>, uid: string): seq<nat>
  {
    if groups == [] then []
    else
      KeptIndices(groups[..|groups| - 1], uid) + (if Matches(groups[|groups| - 1], uid) then [|groups| - 1] else [])
  }

  /** The kept positions are valid and strictly increasing, so no record
      is listed twice, however often it names the uid. */
  lemma {:induction false} KeptIndicesIncreasing(groups: seq<Group>, uid: string)
    ensures forall k :: 0 <= k < |KeptIndices(groups, uid)| ==> KeptIndices(groups, uid)[k] < |groups|
    ensures forall k, l :: 0 <= k < l < |KeptIndices(groups, uid)| ==>
      KeptIndices(groups, uid)[k] < KeptIndices(groups, uid)[l]
  {
    if groups != [] {
      KeptIndicesIncreasing(groups[..|groups| - 1], uid);
    }
  }

  /** A position is kept exactly when the record there matches. */
  lemma {:induction false} KeptIndicesExact(groups: seq<Group>, uid: string)
    ensures forall i :: 0 <= i < |groups| ==> (Matches(groups[i], uid) <==> i in KeptIndices(groups, uid))
  {
    if groups != [] {
      var init := groups[..|groups| - 1];
      KeptIndicesExact(init, uid);
      KeptIndicesIncreasing(init, uid);
      assert forall i :: 0 <= i < |init| ==> groups[i] == init[i];
    }
  }

  /** The k-th entry of the result summarises the record at the k-th kept
      position. */
  lemma {:induction false} UserGroupsAtKept(groups: seq<Group>, uid: string)
    ensures |UserGroups(groups, uid)| == |KeptIndices(groups, uid)|
    ensures forall k :: 0 <= k < |KeptIndices(groups, uid)| ==>
      KeptIndices(groups, uid)[k] < |groups| &&
      UserGroups(groups, uid)[k] == Summary(groups[KeptIndices(groups, uid)[k]])
  {
    KeptIndicesIncreasing(groups, uid);
    if groups != [] {
      var init := groups[..|groups| - 1];
      UserGroupsAtKept(init, uid);
      KeptIndicesIncreasing(init, uid);
      assert forall i :: 0 <= i < |init| ==> groups[i] == init[i];
    }
  }

  /** `UserGroups` is an order-preserving filter of the records: the k-th
      entry summarises the record at the k-th kept position, the positions
      strictly increase (so no record is listed twice, however often it
      names the uid), and a position is kept exactly when that record
      matches. */
  lemma {:induction false} UserGroupsIsFilter(groups: seq<Group>, uid: string)
    ensures |UserGroups(groups, uid)| == |KeptIndices(groups, uid)|
    ensures forall k :: 0 <= k < |KeptIndices(groups, uid)| ==>
      KeptIndices(groups, uid)[k] < |groups| &&
      UserGroups(groups, uid)[k] == Summary(groups[KeptIndices(groups, uid)[k]])
    ensures forall k, l :: 0 <= k < l < |KeptIndices(groups, uid)| ==>
      KeptIndices(groups, uid)[k] < KeptIndices(groups, uid)[l]
    ensures forall i :: 0 <= i < |groups| ==> (Matches(groups[i], uid) <==> i in KeptIndices(groups, uid))
  {
    KeptIndicesIncreasing(groups, uid);
    KeptIndicesExact(groups, uid);
    UserGroupsAtKept(groups, uid);
  }

  /** The result is never longer than the record list. */
  lemma {:induction false} UserGroupsLength(groups: seq<Group>, uid: string)
    ensures |UserGroups(groups, uid)| <= |groups|
  {
    if groups != [] {
      UserGroupsLength(groups[..|groups| - 1], uid);
    }
  }

  /** Concatenating two record lists concatenates their results. */
  lemma {:induction false} UserGroupsAppend(gs: seq<Group>, hs: seq<Group>, uid: string)
    ensures UserGroups(gs + hs, uid) == UserGroups(gs, uid) + UserGroups(hs, uid)
    decreases |hs|
  {
    if hs == [] {
      assert gs + hs == gs;
    } else {
      var hInit := hs[..|hs| - 1];
      assert (gs + hs)[..|gs + hs| - 1] == gs + hInit;
      assert (gs + hs)[|gs + hs| - 1] == hs[|hs| - 1];
      UserGroupsAppend(gs, hInit, uid);
    }
  }

  /** `extractUserGroupsFromList(groups, uid)` (index.js:48-66). */
  method ExtractUserGroupsFromList(groups: seq<Group>, uid: string) returns (userGroups: seq<GroupSummary>)
    ensures userGroups == UserGroups(groups, uid)
  {
    var needle := "uid=" + uid + ",";
    userGroups := [];
    for i := 0 to |groups|
      invariant userGroups == UserGroups(groups[..i], uid)
    {
      var g := groups[i];
      var members := if g.memberUid.Many? then g.memberUid.items else [];
      var found := SomeStartsWith(members, needle);
      if found {
        userGroups := userGroups + [GroupSummary(g.cn, g.dn, g.gidNumber)];
      }
      assert groups[..i + 1][..i] == groups[..i];
    }
    assert groups[..|groups|] == groups;
  }

  /** The `assignee` task variable: unset, a string, or another value. */
  datatype TaskVar = Unset | StrVar(s: string) | OtherVar(truthy: bool)

  /** The outcome of an HTTP request whose body the handler reads. */
  datatype Fetch<T> = Received(body: T) | TransportFailed

  /** Why the handler reports a task failure instead of completing. */
  datatype Failure = AssigneeInvalid | UserLookupFailed | GroupsFetchFailed

  /** `Completed` carries the `secondRole` output variable and the role count
      the handler logs; `Failed` stands for `handleFailure`. */
  datatype CheckOutcome = Completed(secondRole: bool, totalRoles: nat) | Failed(reason: Failure)

  /** `assignee` passes `!assignee || typeof assignee !== "string"`. */
  predicate ValidAssignee(v: TaskVar)
  {
    v.StrVar? && v.s != ""
  }

  /** The decision part of the `check-roles` handler (index.js:87-106).
      `userFound` is whether `fetchUserByAssignee` returned a record (false
      covers both its not-found error and a failed request); `groupsFetch` is
      the response of `GET /groups`. */
  method CheckRoles(assignee: TaskVar, userFound: bool, groupsFetch: Fetch<Payload>) returns (outcome: CheckOutcome)
    ensures !ValidAssignee(assignee) ==> outcome == Failed(AssigneeInvalid)
    ensures ValidAssignee(assignee) && !userFound ==> outcome == Failed(UserLookupFailed)
    ensures ValidAssignee(assignee) && userFound && groupsFetch.TransportFailed? ==>
      outcome == Failed(GroupsFetchFailed)
    ensures ValidAssignee(assignee) && userFound && groupsFetch.Received? ==>
      outcome.Completed? &&
      outcome.totalRoles == |UserGroups(NormalizeGroups(groupsFetch.body), assignee.s)|
    ensures outcome.Completed? ==> (outcome.secondRole <==> outcome.totalRoles >= 2)
  {
    if !assignee.StrVar? || assignee.s == "" {
      return Failed(AssigneeInvalid);
    }
    if !userFound {
      return Failed(UserLookupFailed);
    }
    if groupsFetch.TransportFailed? {
      return Failed(GroupsFetchFailed);
    }
    var allGroups := NormalizeGroups(groupsFetch.body);
    var userGroups := ExtractUserGroupsFromList(allGroups, assignee.s);
    var totalRoles := |userGroups|;
    var secondRole := false;
    if totalRoles >= 2 {
      secondRole := true;
    }
    outcome := Completed(secondRole, totalRoles);
  }

  /** A payload that is not an array yields at most one record, so the
      handler can never set `secondRole` from it: a single object counts
      once if it matches, anything else counts zero. */
  lemma {:induction false} NonArrayPayloadCount(data: Payload, uid: string)
    requires !data.ArrayBody?
    ensures |UserGroups(NormalizeGroups(data), uid)| ==
      if data.ObjectBody? && Matches(data.record, uid) then 1 else 0
  {
    if data.ObjectBody? {
      assert NormalizeGroups(data)[..0] == [];
    }
  }

  /** A record whose `memberUid` is a single string (or absent, or any
      non-array value) is never kept, whatever that string says. */
  lemma {:induction false} NonArrayMemberUidNeverMatches(g: Group, uid: string)
    requires !g.memberUid.Many?
    ensures UserGroups([g], uid) == []
  {
    assert [g][..0] == [];
  }
}
