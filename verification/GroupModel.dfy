/** Groups as values: what the linked list of common/group.c means, and what each operation does to it. */
module GroupModel {
  import opened Basics
  import opened Decimal

  datatype Group = Group(id: Bytes, name: Bytes, creator: Bytes, members: seq<Bytes>)

  datatype GroupError = Invalid | Full | NotFound | NotMember | Payload

  /** `valid_member_name`, which is also `valid_username`. C strings never contain NUL. */
  predicate ValidName(s: Bytes) {
    s != [] && |s| < USERNAME_MAX_LEN && NUL !in s && COLON !in s && NEWLINE !in s
  }

  predicate ValidGroupName(s: Bytes) {
    s != [] && |s| < GROUP_NAME_MAX_LEN && NUL !in s && NEWLINE !in s
  }

  predicate ValidGroupId(s: Bytes) {
    s != [] && |s| < GROUP_ID_MAX_LEN && NUL !in s && NEWLINE !in s
  }

  predicate ValidMembers(ms: seq<Bytes>) {
    Distinct(ms) && forall i :: 0 <= i < |ms| ==> ValidName(ms[i])
  }

  /** Names have 1 to 31 bytes and group names 1 to 63; NUL and newline are in neither, colons in no name. */
  lemma NameRules(s: Bytes)
    ensures ValidName(s) <==> 1 <= |s| <= 31 && 0 !in s && 10 !in s && 58 !in s
    ensures ValidGroupName(s) <==> 1 <= |s| <= 63 && 0 !in s && 10 !in s
  {
  }

  /** How many identifiers there are: `next_id` is a 32-bit unsigned counter. */
  const IDS: nat := 0x1_0000_0000

  /** Value of the counter after that many increments. */
  function Wrap(n: nat): nat {
    n % IDS
  }

  /** `snprintf("g%06u", next_id)`, where the counter is a 32-bit unsigned integer. */
  function FormatId(issued: nat): (id: Bytes)
    ensures 7 <= |id| && NUL !in id
  {
    [103 as byte] + Padded6(Wrap(issued))
  }

  lemma FormatIdFacts(n: nat)
    ensures ValidGroupId(FormatId(n)) && |FormatId(n)| <= 11
  {
    Padded6Length(n % IDS);
  }

  lemma FormatIdInjective(a: nat, b: nat)
    requires a < b + IDS && b < a + IDS
    ensures FormatId(a) == FormatId(b) ==> a == b
  {
    hide Padded6, Value;
    assert FormatId(a)[1..] == Padded6(Wrap(a)) && FormatId(b)[1..] == Padded6(Wrap(b));
    Padded6Value(Wrap(a));
    Padded6Value(Wrap(b));
  }

  /** "g" and at least six digits; the counter is printed modulo 2^32. */
  lemma IdentifierExamples()
    ensures FormatId(1) == [103, 48, 48, 48, 48, 48, 49] && FormatId(1234567) == [103, 49, 50, 51, 52, 53, 54, 55]
    ensures FormatId(4294967296 + 42) == [103, 48, 48, 48, 48, 52, 50]
  {
    hide *;
    ShortDigits();
    LongDigits();
    PrintedId(1, [49]);
    PrintedId(4294967296 + 42, [52, 50]);
    PrintedId(1234567, [49, 50, 51, 52, 53, 54, 55]);
    assert [103 as byte] + (seq(5, _ => 48 as byte) + [49]) == [103, 48, 48, 48, 48, 48, 49];
    assert [103 as byte] + (seq(4, _ => 48 as byte) + [52, 50]) == [103, 48, 48, 48, 48, 52, 50];
    assert [103 as byte] + [49, 50, 51, 52, 53, 54, 55] == [103, 49, 50, 51, 52, 53, 54, 55];
  }

  lemma PrintedId(n: nat, d: Bytes)
    requires Digits(n % 4294967296) == d
    ensures FormatId(n) == [103] + (if |d| >= 6 then d else seq(6 - |d|, _ => 48 as byte) + d)
  {
    hide Digits;
  }

  lemma ShortDigits()
    ensures Digits(1) == [49] && Digits(42) == [52, 50]
  {
    assert Digits(4) == [52];
  }

  lemma LongDigits()
    ensures Digits(1234567) == [49, 50, 51, 52, 53, 54, 55]
  {
    assert Digits(123) == [49, 50, 51] by { assert Digits(12) == Digits(1) + [50]; }
    assert Digits(12345) == [49, 50, 51, 52, 53] by { assert Digits(1234) == Digits(123) + [52]; }
    assert Digits(123456) == Digits(12345) + [54];
  }

  predicate ValidGroup(g: Group) {
    && ValidGroupId(g.id) && |g.id| <= 11 && ValidGroupName(g.name) && ValidName(g.creator)
    && 1 <= |g.members| <= GROUP_MAX_MEMBERS && ValidMembers(g.members)
  }

  predicate DistinctIds(gs: seq<Group>) {
    forall i, j :: 0 <= i < j < |gs| ==> gs[i].id != gs[j].id
  }

  ghost predicate IssuedBefore(id: Bytes, issued: nat) {
    exists k: nat :: 1 <= k < issued && id == FormatId(k)
  }

  /** What the store keeps as long as fewer than 2^32 identifiers have been issued. */
  ghost predicate GroupsOk(gs: seq<Group>, issued: nat) {
    && |gs| <= GROUP_MAX_GROUPS && DistinctIds(gs)
    && (forall i :: 0 <= i < |gs| ==> ValidGroup(gs[i]))
    && (forall i :: 0 <= i < |gs| ==> IssuedBefore(gs[i].id, issued))
  }

  // ---------- members ----------

  /** `member_index`: -1 for an invalid or absent name. */
  function MemberIndex(ms: seq<Bytes>, name: Bytes): (i: int)
    ensures -1 <= i < |ms|
    ensures 0 <= i ==> ValidName(name) && ms[i] == name && name !in ms[..i]
    ensures i < 0 ==> !ValidName(name) || name !in ms
  {
    if !ValidName(name) || ms == [] then -1
    else if ms[0] == name then 0
    else
      var k := MemberIndex(ms[1..], name);
      assert k >= 0 ==> ms[..k + 1] == [ms[0]] + ms[1..][..k];
      if k < 0 then -1 else k + 1
  }

  function RemoveAt<T>(s: seq<T>, i: nat): (r: seq<T>)
    requires i < |s|
    ensures |r| == |s| - 1 && forall k :: 0 <= k < |r| ==> r[k] == s[if k < i then k else k + 1]
  {
    s[..i] + s[i + 1..]
  }

  function Without(g: Group, i: nat): (r: Group)
    requires i < |g.members|
    ensures |r.members| == |g.members| - 1
  {
    g.(members := RemoveAt(g.members, i))
  }

  // ---------- removing a member everywhere ----------

  /** The groups left by `group_store_remove_member`: emptied groups are unlinked. */
  function RemoveMember(gs: seq<Group>, name: Bytes): seq<Group> {
    if gs == [] then []
    else
      var i := MemberIndex(gs[0].members, name);
      var rest := RemoveMember(gs[1..], name);
      if i < 0 then [gs[0]] + rest
      else if |gs[0].members| == 1 then rest
      else [Without(gs[0], i)] + rest
  }

  /** New snapshots of the groups that lose `name` and survive, in list order. */
  function Changed(gs: seq<Group>, name: Bytes): seq<Group> {
    if gs == [] then []
    else
      var i := MemberIndex(gs[0].members, name);
      var rest := Changed(gs[1..], name);
      if i < 0 || |gs[0].members| == 1 then rest else [Without(gs[0], i)] + rest
  }

  function FilterOut(ms: seq<Bytes>, name: Bytes): seq<Bytes> {
    if ms == [] then [] else (if ms[0] == name then [] else [ms[0]]) + FilterOut(ms[1..], name)
  }

  lemma {:induction false} FilterOutAbsent(ms: seq<Bytes>, name: Bytes)
    requires name !in ms
    ensures FilterOut(ms, name) == ms
  {
    if ms != [] { FilterOutAbsent(ms[1..], name); }
  }

  lemma {:induction false} FilterOutFacts(ms: seq<Bytes>, name: Bytes)
    ensures forall m :: m in FilterOut(ms, name) <==> m in ms && m != name
    ensures Distinct(ms) ==> Distinct(FilterOut(ms, name))
  {
    if ms != [] {
      FilterOutFacts(ms[1..], name);
      var t := FilterOut(ms[1..], name);
      assert Distinct(ms) ==> ms[0] !in ms[1..] && ms[0] !in t;
      assert FilterOut(ms, name) == if ms[0] == name then t else [ms[0]] + t;
    }
  }

  lemma {:induction false} FilterOutOne(ms: seq<Bytes>, name: Bytes, i: nat)
    requires i < |ms| && ms[i] == name && Distinct(ms)
    ensures FilterOut(ms, name) == RemoveAt(ms, i)
  {
    if i == 0 {
      FilterOutAbsent(ms[1..], name);
    } else {
      FilterOutOne(ms[1..], name, i - 1);
      assert RemoveAt(ms, i) == [ms[0]] + RemoveAt(ms[1..], i - 1);
    }
  }

  /** Reference meaning of a departure for one group: nothing left of it, or the others in order. */
  function Leave(g: Group, name: Bytes): seq<Group> {
    if FilterOut(g.members, name) == [] then [] else [g.(members := FilterOut(g.members, name))]
  }

  function LeaveAll(gs: seq<Group>, name: Bytes): seq<Group> {
    if gs == [] then [] else Leave(gs[0], name) + LeaveAll(gs[1..], name)
  }

  /** The groups of `gs` that have `name` as a member. */
  function GroupsOf(gs: seq<Group>, name: Bytes): seq<Group> {
    if gs == [] then [] else (if name in gs[0].members then [gs[0]] else []) + GroupsOf(gs[1..], name)
  }

  predicate AllValid(gs: seq<Group>) {
    forall i :: 0 <= i < |gs| ==> ValidGroup(gs[i])
  }

  lemma LeaveOne(g: Group, name: Bytes)
    requires ValidGroup(g) && ValidName(name)
    ensures var i := MemberIndex(g.members, name);
            && (i < 0 ==> name !in g.members && Leave(g, name) == [g])
            && (i >= 0 ==> name in g.members
                           && Leave(g, name) == if |g.members| == 1 then [] else [Without(g, i)])
            && (i >= 0 ==> name !in Without(g, i).members)
            && (i >= 0 && |g.members| > 1 ==> ValidGroup(Without(g, i)))
            && (i >= 0 ==> forall m :: m in Without(g, i).members <==> m in g.members && m != name)
  {
    var i := MemberIndex(g.members, name);
    FilterOutFacts(g.members, name);
    if i < 0 {
      FilterOutAbsent(g.members, name);
    } else {
      FilterOutOne(g.members, name, i);
    }
  }

  /**
   Exact removal: afterwards every group is what is left of the old one, with the other members in
   order, emptied groups gone, the rest untouched; and the change list is the departures from the
   surviving groups that had the member.
   */
  lemma {:induction false} ExactRemoval(gs: seq<Group>, name: Bytes)
    requires AllValid(gs) && ValidName(name)
    ensures RemoveMember(gs, name) == LeaveAll(gs, name)
    ensures Changed(gs, name) == LeaveAll(GroupsOf(gs, name), name)
  {
    if gs != [] {
      ExactRemoval(gs[1..], name);
      LeaveOne(gs[0], name);
      if name in gs[0].members {
        assert ([gs[0]] + GroupsOf(gs[1..], name))[1..] == GroupsOf(gs[1..], name);
        assert ([gs[0]] + GroupsOf(gs[1..], name))[0] == gs[0];
      } else {
        assert [] + GroupsOf(gs[1..], name) == GroupsOf(gs[1..], name);
      }
    }
  }

  /** Where each group of the result comes from. */
  lemma {:induction false} RemovedFrom(gs: seq<Group>, name: Bytes, j: nat) returns (i: nat)
    requires AllValid(gs) && ValidName(name) && j < |RemoveMember(gs, name)|
    ensures j <= i < |gs|
    ensures var g, r := gs[i], RemoveMember(gs, name)[j];
            && r.id == g.id && r.name == g.name && r.creator == g.creator && ValidGroup(r)
            && (forall m :: m in r.members <==> m in g.members && m != name)
            && (name !in g.members ==> r == g)
            && (name in g.members ==> r in Changed(gs, name))
  {
    hide ValidGroup, MemberIndex, FilterOut;
    LeaveOne(gs[0], name);
    var k := MemberIndex(gs[0].members, name);
    if k >= 0 && |gs[0].members| == 1 {
      i := RemovedFrom(gs[1..], name, j);
      i := i + 1;
    } else if j == 0 {
      i := 0;
    } else {
      i := RemovedFrom(gs[1..], name, j - 1);
      i := i + 1;
    }
  }

  /** Every group that keeps a member is still there. */
  lemma {:induction false} KeptIn(gs: seq<Group>, name: Bytes, i: nat) returns (j: nat)
    requires AllValid(gs) && ValidName(name) && i < |gs|
    requires exists m :: m in gs[i].members && m != name
    ensures j < |RemoveMember(gs, name)| && RemoveMember(gs, name)[j].id == gs[i].id
    ensures forall m :: m in RemoveMember(gs, name)[j].members <==> m in gs[i].members && m != name
    ensures name !in gs[i].members ==> RemoveMember(gs, name)[j] == gs[i]
  {
    hide ValidGroup, MemberIndex, FilterOut;
    LeaveOne(gs[0], name);
    var k := MemberIndex(gs[0].members, name);
    if i == 0 {
      j := 0;
    } else {
      j := KeptIn(gs[1..], name, i - 1);
      if !(k >= 0 && |gs[0].members| == 1) { j := j + 1; }
    }
  }

  lemma {:induction false} ChangedAreKept(gs: seq<Group>, name: Bytes, c: nat) returns (j: nat)
    requires AllValid(gs) && ValidName(name) && c < |Changed(gs, name)|
    ensures j < |RemoveMember(gs, name)| && RemoveMember(gs, name)[j] == Changed(gs, name)[c]
    ensures ValidGroup(Changed(gs, name)[c])
  {
    hide ValidGroup, MemberIndex, FilterOut;
    LeaveOne(gs[0], name);
    var k := MemberIndex(gs[0].members, name);
    if k < 0 {
      j := ChangedAreKept(gs[1..], name, c);
      j := j + 1;
    } else if |gs[0].members| == 1 {
      j := ChangedAreKept(gs[1..], name, c);
    } else if c == 0 {
      j := 0;
    } else {
      j := ChangedAreKept(gs[1..], name, c - 1);
      j := j + 1;
    }
  }

  lemma {:induction false} RemovalOrder(gs: seq<Group>, name: Bytes)
    requires AllValid(gs) && ValidName(name) && DistinctIds(gs)
    ensures DistinctIds(RemoveMember(gs, name)) && |RemoveMember(gs, name)| <= |gs|
  {
    if gs != [] {
      RemovalOrder(gs[1..], name);
      var r := RemoveMember(gs[1..], name);
      forall j | 0 <= j < |r| ensures r[j].id != gs[0].id {
        var i := RemovedFrom(gs[1..], name, j);
      }
    }
  }

  /** A departure keeps the store's invariant and leaves the name in no group. */
  lemma RemovalKeepsGroups(gs: seq<Group>, name: Bytes, issued: nat)
    requires GroupsOk(gs, issued) && ValidName(name)
    ensures GroupsOk(RemoveMember(gs, name), issued)
    ensures forall j :: 0 <= j < |RemoveMember(gs, name)| ==> name !in RemoveMember(gs, name)[j].members
  {
    RemovalOrder(gs, name);
    forall j | 0 <= j < |RemoveMember(gs, name)|
      ensures ValidGroup(RemoveMember(gs, name)[j]) && name !in RemoveMember(gs, name)[j].members
      ensures IssuedBefore(RemoveMember(gs, name)[j].id, issued)
    {
      var i := RemovedFrom(gs, name, j);
      assert IssuedBefore(gs[i].id, issued);
    }
  }

  // ---------- creating a group ----------

  datatype AddResult = Added(members: seq<Bytes>) | AddFailed(error: GroupError)

  /** The member loop of `group_store_create`: repeats are skipped, the first bad name ends it. */
  function AddMembers(acc: seq<Bytes>, ms: seq<Bytes>): AddResult
    decreases |ms|
  {
    if ms == [] then Added(acc)
    else if !ValidName(ms[0]) then AddFailed(Invalid)
    else if ms[0] in acc then AddMembers(acc, ms[1..])
    else if |acc| >= GROUP_MAX_MEMBERS then AddFailed(Full)
    else AddMembers(acc + [ms[0]], ms[1..])
  }

  datatype CreateResult = Created(group: Group) | CreateFailed(error: GroupError)

  function CreateGroup(gs: seq<Group>, issued: nat, creator: Bytes, name: Bytes, ms: seq<Bytes>): CreateResult {
    if !ValidName(creator) || !ValidGroupName(name) || ms == [] then CreateFailed(Invalid)
    else match AddMembers([creator], ms)
      case AddFailed(e) => CreateFailed(e)
      case Added(all) =>
        if |all| == 1 then CreateFailed(Invalid)
        else if |gs| >= GROUP_MAX_GROUPS then CreateFailed(Full)
        else Created(Group(FormatId(issued), name, creator, all))
  }

  /** The distinct names of a list, each at its first occurrence. */
  function FirstSeen(s: seq<Bytes>): seq<Bytes> {
    if s == [] then []
    else
      var before := s[..|s| - 1];
      if s[|s| - 1] in before then FirstSeen(before) else FirstSeen(before) + [s[|s| - 1]]
  }

  lemma {:induction false} FirstSeenFacts(s: seq<Bytes>)
    ensures Distinct(FirstSeen(s)) && forall m :: m in FirstSeen(s) <==> m in s
  {
    if s != [] {
      FirstSeenFacts(s[..|s| - 1]);
      assert s == s[..|s| - 1] + [s[|s| - 1]];
    }
  }

  lemma {:induction false} FirstSeenDistinct(s: seq<Bytes>)
    requires Distinct(s)
    ensures FirstSeen(s) == s
  {
    if s != [] {
      var before, last := s[..|s| - 1], s[|s| - 1];
      FirstSeenDistinct(before);
      assert s == before + [last];
      assert last !in before;
    }
  }

  /** `x` stands in the list before any `y`. */
  predicate SeenBefore(x: Bytes, y: Bytes, s: seq<Bytes>) {
    exists a :: 0 <= a < |s| && s[a] == x && y !in s[..a]
  }

  /** Of two names the one that is first seen earlier comes first. */
  predicate InOrderOf(names: seq<Bytes>, s: seq<Bytes>) {
    forall i, j :: 0 <= i < j < |names| ==> SeenBefore(names[i], names[j], s)
  }

  lemma {:induction false} FirstSeenInOrder(s: seq<Bytes>)
    ensures InOrderOf(FirstSeen(s), s)
  {
    if s != [] {
      var before, last, names := s[..|s| - 1], s[|s| - 1], FirstSeen(s);
      FirstSeenInOrder(before);
      FirstSeenFacts(before);
      forall i, j | 0 <= i < j < |names| ensures SeenBefore(names[i], names[j], s) {
        if j < |FirstSeen(before)| {
          var a :| 0 <= a < |before| && before[a] == FirstSeen(before)[i] && FirstSeen(before)[j] !in before[..a];
          assert s[..a] == before[..a];
        } else {
          assert names[i] in FirstSeen(before);
          var a :| 0 <= a < |before| && before[a] == names[i];
          assert forall x :: x in s[..a] ==> x in before;
        }
      }
    }
  }

  lemma {:induction false} FirstSeenGrows(s: seq<Bytes>, t: seq<Bytes>)
    ensures |FirstSeen(s)| <= |FirstSeen(s + t)|
  {
    if t == [] {
      assert s + t == s;
    } else {
      FirstSeenGrows(s, t[..|t| - 1]);
      assert (s + t)[..|s + t| - 1] == s + t[..|t| - 1];
    }
  }

  /** The loop succeeds exactly when all names are valid and at most 64 are distinct. */
  lemma {:induction false} AddMembersIsFirstSeen(seen: seq<Bytes>, ms: seq<Bytes>)
    requires |FirstSeen(seen)| <= GROUP_MAX_MEMBERS
    ensures AddMembers(FirstSeen(seen), ms).Added?
            <==> (forall i :: 0 <= i < |ms| ==> ValidName(ms[i])) && |FirstSeen(seen + ms)| <= GROUP_MAX_MEMBERS
    ensures AddMembers(FirstSeen(seen), ms).Added? ==> AddMembers(FirstSeen(seen), ms).members == FirstSeen(seen + ms)
    decreases |ms|
  {
    FirstSeenFacts(seen);
    if ms == [] {
      assert seen + ms == seen;
    } else {
      var more := seen + [ms[0]];
      assert more[..|more| - 1] == seen;
      assert more + ms[1..] == seen + ms;
      if ValidName(ms[0]) {
        if ms[0] in seen {
          AddMembersIsFirstSeen(more, ms[1..]);
        } else if |FirstSeen(seen)| >= GROUP_MAX_MEMBERS {
          FirstSeenGrows(more, ms[1..]);
        } else {
          AddMembersIsFirstSeen(more, ms[1..]);
        }
        assert (forall i :: 0 <= i < |ms| ==> ValidName(ms[i]))
               <==> (forall i :: 0 <= i < |ms[1..]| ==> ValidName(ms[1..][i])) by {
          if forall i :: 0 <= i < |ms[1..]| ==> ValidName(ms[1..][i]) {
            forall i | 0 <= i < |ms| ensures ValidName(ms[i]) {
              if i > 0 { assert ms[i] == ms[1..][i - 1]; }
            }
          }
        }
      }
    }
  }

  predicate Creatable(gs: seq<Group>, creator: Bytes, name: Bytes, ms: seq<Bytes>) {
    && ValidName(creator) && ValidGroupName(name)
    && (forall i :: 0 <= i < |ms| ==> ValidName(ms[i])) && (exists m :: m in ms && m != creator)
    && |FirstSeen([creator] + ms)| <= GROUP_MAX_MEMBERS && |gs| < GROUP_MAX_GROUPS
  }

  lemma FirstSeenOfOne(creator: Bytes, ms: seq<Bytes>)
    ensures |FirstSeen([creator] + ms)| > 1 <==> exists m :: m in ms && m != creator
    ensures 1 <= |FirstSeen([creator] + ms)|
  {
    var all := FirstSeen([creator] + ms);
    FirstSeenFacts([creator] + ms);
    assert creator in all by { assert ([creator] + ms)[0] == creator; }
    assert |all| == 1 ==> all == [creator];
    if |all| > 1 {
      var m := if all[0] == creator then all[1] else all[0];
      assert m in all && m != creator && m in [creator] + ms;
      assert m in ms;
    }
    if m :| m in ms && m != creator {
      assert m in [creator] + ms;
      assert m in all;
    }
  }

  /**
   A group is created exactly when creator, name and members are valid, someone else is named, and
   neither limit is exceeded; it has the creator first and then the others as first named.
   */
  lemma CreateMeaning(gs: seq<Group>, issued: nat, creator: Bytes, name: Bytes, ms: seq<Bytes>)
    ensures CreateGroup(gs, issued, creator, name, ms).Created? <==> Creatable(gs, creator, name, ms)
    ensures Creatable(gs, creator, name, ms) ==>
              CreateGroup(gs, issued, creator, name, ms).group
              == Group(FormatId(issued), name, creator, FirstSeen([creator] + ms))
  {
    assert [creator][..0] == [];
    assert FirstSeen([creator]) == [creator];
    AddMembersIsFirstSeen([creator], ms);
    FirstSeenOfOne(creator, ms);
  }

  /** The first `n` names are valid, and with them the list has a 65th. */
  predicate Overflows(seen: seq<Bytes>, ms: seq<Bytes>, n: nat) {
    n <= |ms| && (forall i :: 0 <= i < n ==> ValidName(ms[i])) && |FirstSeen(seen + ms[..n])| > GROUP_MAX_MEMBERS
  }

  /** A failed loop has met a 65th name before any bad one, or a bad name. */
  lemma {:induction false} AddMembersError(seen: seq<Bytes>, ms: seq<Bytes>)
    requires |FirstSeen(seen)| <= GROUP_MAX_MEMBERS
    ensures AddMembers(FirstSeen(seen), ms) == AddFailed(Full) <==> exists n: nat :: Overflows(seen, ms, n)
    ensures AddMembers(FirstSeen(seen), ms).AddFailed? ==> AddMembers(FirstSeen(seen), ms).error in {Full, Invalid}
    decreases |ms|
  {
    hide ValidName, Overflows;
    FirstSeenFacts(seen);
    NoOverflowYet(seen, ms);
    if ms == [] {
      NoneOverflow(seen);
    } else {
      var more := seen + [ms[0]];
      assert more[..|more| - 1] == seen;
      forall n: nat | n >= 1 ensures Overflows(seen, ms, n) <==> ValidName(ms[0]) && Overflows(more, ms[1..], n - 1) {
        OverflowsLater(seen, ms, n);
      }
      NoOverflowYet(more, ms[1..]);
      if ValidName(ms[0]) && |FirstSeen(more)| <= GROUP_MAX_MEMBERS {
        AddMembersError(more, ms[1..]);
        assert AddMembers(FirstSeen(seen), ms) == AddMembers(FirstSeen(more), ms[1..]);
        if n: nat :| Overflows(more, ms[1..], n) { assert Overflows(seen, ms, n + 1); }
        if n: nat :| Overflows(seen, ms, n) { assert n >= 1 && Overflows(more, ms[1..], n - 1); }
      } else if ValidName(ms[0]) {
        assert Overflows(seen, ms, 1);
      }
    }
  }

  lemma NoOverflowYet(seen: seq<Bytes>, ms: seq<Bytes>)
    ensures Overflows(seen, ms, 0) <==> |FirstSeen(seen)| > GROUP_MAX_MEMBERS
  {
    assert seen + ms[..0] == seen;
  }

  lemma NoneOverflow(seen: seq<Bytes>)
    requires |FirstSeen(seen)| <= GROUP_MAX_MEMBERS
    ensures forall n: nat :: !Overflows(seen, [], n)
  {
    NoOverflowYet(seen, []);
    forall n: nat ensures !Overflows(seen, [], n) {
      if n > 0 { assert !Overflows(seen, [], n); }
    }
  }

  lemma OverflowsLater(seen: seq<Bytes>, ms: seq<Bytes>, n: nat)
    requires ms != [] && n >= 1
    ensures Overflows(seen, ms, n) <==> ValidName(ms[0]) && Overflows(seen + [ms[0]], ms[1..], n - 1)
  {
    hide ValidName, FirstSeen;
    if n <= |ms| {
      assert seen + ms[..n] == seen + [ms[0]] + ms[1..][..n - 1];
      if ValidName(ms[0]) && forall i :: 0 <= i < n - 1 ==> ValidName(ms[1..][i]) {
        forall i | 0 <= i < n ensures ValidName(ms[i]) { if i > 0 { assert ms[i] == ms[1..][i - 1]; } }
      }
      if forall i :: 0 <= i < n ==> ValidName(ms[i]) {
        forall i | 0 <= i < n - 1 ensures ValidName(ms[1..][i]) { assert ms[1..][i] == ms[i + 1]; }
      }
    }
  }

  /** A refused request is `Full` when its names overflow, or when only the 128 groups are in its way. */
  lemma CreateError(gs: seq<Group>, issued: nat, creator: Bytes, name: Bytes, ms: seq<Bytes>)
    ensures var r := CreateGroup(gs, issued, creator, name, ms);
            && (r == CreateFailed(Full) <==>
                  && ValidName(creator) && ValidGroupName(name)
                  && ((exists n: nat :: Overflows([creator], ms, n)) || (Creatable([], creator, name, ms) && |gs| >= 128)))
            && (r.CreateFailed? ==> r.error in {Full, Invalid})
  {
    hide ValidName, ValidGroupName, Overflows, FormatId, AddMembers;
    assert [creator][..0] == [];
    assert FirstSeen([creator]) == [creator];
    AddMembersError([creator], ms);
    AddMembersIsFirstSeen([creator], ms);
    FirstSeenOfOne(creator, ms);
    if ms == [] { NoneOverflow([creator]); }
  }

  lemma CreatedIsValid(gs: seq<Group>, issued: nat, creator: Bytes, name: Bytes, ms: seq<Bytes>)
    requires CreateGroup(gs, issued, creator, name, ms).Created?
    ensures ValidGroup(CreateGroup(gs, issued, creator, name, ms).group)
    ensures forall m :: m in CreateGroup(gs, issued, creator, name, ms).group.members <==> m == creator || m in ms
  {
    CreateMeaning(gs, issued, creator, name, ms);
    FirstSeenFacts([creator] + ms);
    FirstSeenOfOne(creator, ms);
    FormatIdFacts(issued);
    var all := FirstSeen([creator] + ms);
    forall i | 0 <= i < |all| ensures ValidName(all[i]) {
      assert all[i] in all;
      assert all[i] in [creator] + ms;
    }
  }

  /** Creation keeps the invariant while there are identifiers left. */
  lemma CreationKeepsGroups(gs: seq<Group>, issued: nat, creator: Bytes, name: Bytes, ms: seq<Bytes>)
    requires GroupsOk(gs, issued) && 1 <= issued <= IDS
    requires CreateGroup(gs, issued, creator, name, ms).Created?
    ensures GroupsOk([CreateGroup(gs, issued, creator, name, ms).group] + gs, issued + 1)
    ensures !IssuedBefore(FormatId(issued), issued)
  {
    CreatedIsValid(gs, issued, creator, name, ms);
    forall k: nat | 1 <= k < issued ensures FormatId(issued) != FormatId(k) {
      FormatIdInjective(issued, k);
    }
    forall i | 0 <= i < |gs| ensures IssuedBefore(gs[i].id, issued + 1) && gs[i].id != FormatId(issued) {
      assert IssuedBefore(gs[i].id, issued);
    }
  }

  // ---------- runs ----------

  datatype GroupOp = OpCreate(creator: Bytes, name: Bytes, members: seq<Bytes>) | OpRemove(user: Bytes)

  /** The store with its history: `issued` is one more than the number of groups ever created. */
  datatype GroupRun = GroupRun(groups: seq<Group>, issued: nat, history: seq<Bytes>)

  function GroupStep(r: GroupRun, op: GroupOp): GroupRun {
    match op
    case OpCreate(creator, name, members) =>
      (match CreateGroup(r.groups, r.issued, creator, name, members)
       case CreateFailed(_) => r
       case Created(g) => GroupRun([g] + r.groups, r.issued + 1, r.history + [g.id]))
    case OpRemove(user) =>
      if ValidName(user) then r.(groups := RemoveMember(r.groups, user)) else r
  }

  function RunGroups(ops: seq<GroupOp>): GroupRun {
    if ops == [] then GroupRun([], 1, []) else GroupStep(RunGroups(ops[..|ops| - 1]), ops[|ops| - 1])
  }

  /** The store is well formed and the identifiers given so far are the first ones, in order. */
  ghost predicate RunOk(r: GroupRun) {
    && GroupsOk(r.groups, r.issued) && r.issued == |r.history| + 1
    && (forall i :: 0 <= i < |r.history| ==> r.history[i] == FormatId(i + 1))
  }

  lemma GroupStepKeeps(r: GroupRun, op: GroupOp)
    requires RunOk(r) && r.issued <= IDS
    ensures RunOk(GroupStep(r, op))
  {
    hide FormatId;
    match op
    case OpCreate(creator, name, members) =>
      if CreateGroup(r.groups, r.issued, creator, name, members).Created? {
        CreationKeepsGroups(r.groups, r.issued, creator, name, members);
      }
    case OpRemove(user) =>
      if ValidName(user) { RemovalKeepsGroups(r.groups, user, r.issued); }
  }

  lemma {:induction false} IssuedGrows(ops: seq<GroupOp>)
    ensures 1 <= RunGroups(ops).issued <= |ops| + 1
    ensures ops != [] ==> RunGroups(ops[..|ops| - 1]).issued <= RunGroups(ops).issued
  {
    if ops != [] { IssuedGrows(ops[..|ops| - 1]); }
  }

  lemma EmptyGroupsOk()
    ensures GroupsOk([], 1)
  {
  }

  /** Over any run of at most 2^32 creations the store is well formed. */
  lemma {:induction false} GroupsOkAlways(ops: seq<GroupOp>)
    requires |RunGroups(ops).history| <= IDS
    ensures RunOk(RunGroups(ops))
  {
    hide GroupStep, GroupsOk, FormatId;
    HistoryIs(ops);
    if ops == [] {
      EmptyGroupsOk();
    } else {
      IssuedGrows(ops);
      HistoryIs(ops[..|ops| - 1]);
      GroupsOkAlways(ops[..|ops| - 1]);
      if RunGroups(ops[..|ops| - 1]).issued <= IDS {
        GroupStepKeeps(RunGroups(ops[..|ops| - 1]), ops[|ops| - 1]);
      } else {
        NothingCreated(RunGroups(ops[..|ops| - 1]), ops[|ops| - 1]);
      }
    }
  }

  lemma NothingCreated(r: GroupRun, op: GroupOp)
    requires RunOk(r) && GroupStep(r, op).issued == r.issued
    ensures RunOk(GroupStep(r, op))
  {
    hide FormatId, GroupsOk;
    if op.OpRemove? && ValidName(op.user) { RemovalKeepsGroups(r.groups, op.user, r.issued); }
  }

  /** Identifiers are issued in the order of the counter, over any run at all. */
  lemma {:induction false} HistoryIs(ops: seq<GroupOp>)
    ensures var r := RunGroups(ops);
            r.issued == |r.history| + 1 && forall i :: 0 <= i < |r.history| ==> r.history[i] == FormatId(i + 1)
  {
    hide FormatId, RemoveMember;
    if ops != [] {
      var r, op := RunGroups(ops[..|ops| - 1]), ops[|ops| - 1];
      HistoryIs(ops[..|ops| - 1]);
      if op.OpCreate? && CreateGroup(r.groups, r.issued, op.creator, op.name, op.members).Created? {
        CreateMeaning(r.groups, r.issued, op.creator, op.name, op.members);
      }
    }
  }

  /** After 2^32 creations the counter has come round: every identifier is issued again. */
  lemma IdentifiersComeRound(ops: seq<GroupOp>, k: nat)
    requires k + IDS < |RunGroups(ops).history|
    ensures RunGroups(ops).history[k + IDS] == RunGroups(ops).history[k]
  {
    hide Padded6, RunGroups;
    HistoryIs(ops);
    assert Wrap(k + 1 + IDS) == Wrap(k + 1);
  }

  /** No identifier is given twice over a run exactly when it has at most 2^32 creations. */
  lemma IdentifiersDistinct(ops: seq<GroupOp>)
    ensures Distinct(RunGroups(ops).history) <==> |RunGroups(ops).history| <= IDS
  {
    hide FormatId, RunGroups;
    var history := RunGroups(ops).history;
    HistoryIs(ops);
    if |history| <= IDS {
      forall i, j | 0 <= i < j < |history| ensures history[i] != history[j] {
        FormatIdInjective(i + 1, j + 1);
      }
    } else {
      IdentifiersComeRound(ops, 0);
      assert history[0] == history[IDS];
    }
  }

  /** Any number of creations can happen: a group is made, and both its members leave. */
  lemma {:induction false} ManyCreations(n: nat) returns (ops: seq<GroupOp>)
    ensures |RunGroups(ops).history| == n && RunGroups(ops).groups == []
  {
    hide GroupStep;
    ops := [];
    if n > 0 {
      var before := ManyCreations(n - 1);
      var a, b: Bytes := [97], [98];
      var made := before + [OpCreate(a, [103], [b])];
      OneMoreOp(before, OpCreate(a, [103], [b]));
      OneMoreOp(made, OpRemove(a));
      OneMoreOp(made + [OpRemove(a)], OpRemove(b));
      OneCreation(RunGroups(before), a, b);
      hide RunGroups;
      ops := made + [OpRemove(a)] + [OpRemove(b)];
    } else {
      assert RunGroups([]) == GroupRun([], 1, []);
    }
  }

  lemma OneMoreOp(ops: seq<GroupOp>, op: GroupOp)
    ensures RunGroups(ops + [op]) == GroupStep(RunGroups(ops), op)
  {
    hide GroupStep;
    assert (ops + [op])[..|ops|] == ops;
  }

  lemma OneCreation(r: GroupRun, a: Bytes, b: Bytes)
    requires r.groups == [] && a == [97] && b == [98]
    ensures var made := GroupStep(r, OpCreate(a, [103], [b]));
            var end := GroupStep(GroupStep(made, OpRemove(a)), OpRemove(b));
            end.groups == [] && |end.history| == |r.history| + 1
  {
    hide FormatId, Wrap;
    var g := Group(FormatId(r.issued), [103], a, [a, b]);
    assert [a] + [b] == [a, b] && [b][1..] == [];
    assert AddMembers([a], [b]) == AddMembers([a, b], []) == Added([a, b]);
    var left := g.(members := [b]);
    assert RemoveAt([a, b], 0) == [b] && MemberIndex([a, b], a) == 0 && MemberIndex([b], b) == 0;
    assert [g][1..] == [] && [left][1..] == [];
    assert RemoveMember([g], a) == [left] && RemoveMember([left], b) == [];
  }
}
