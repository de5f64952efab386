/**
 The group store as common/group.c keeps it: a singly linked list of groups, each with a fixed array
 of 64 member slots that is shifted in place. `Contents` is the list as values, head first.
 */
module GroupStore {
  import opened Basics
  import opened Decimal
  import opened GroupModel
  import opened Payload

  lemma AddOneMember(acc: seq<Bytes>, ms: seq<Bytes>)
    requires ms != []
    ensures var one := AddMembers(acc, [ms[0]]);
            AddMembers(acc, ms) == if one.Added? then AddMembers(one.members, ms[1..]) else one
  {
    assert [ms[0]][1..] == [];
    AddInvalid(acc, ms[0]);
  }

  lemma AddNext(acc: seq<Bytes>, ms: seq<Bytes>, i: nat)
    requires i < |ms|
    ensures var one := AddMembers(acc, [ms[i]]);
            AddMembers(acc, ms[i..]) == if one.Added? then AddMembers(one.members, ms[i + 1..]) else one
    ensures !ValidName(ms[i]) ==> AddMembers(acc, ms[i..]) == AddFailed(Invalid)
  {
    hide AddMembers;
    AddOneMember(acc, ms[i..]);
    AddInvalid(acc, ms[i]);
    assert ms[i..][0] == ms[i] && ms[i..][1..] == ms[i + 1..];
  }

  lemma AddInvalid(acc: seq<Bytes>, name: Bytes)
    ensures !ValidName(name) ==> AddMembers(acc, [name]) == AddFailed(Invalid)
  {
  }

  lemma AddFirst(creator: Bytes)
    requires ValidName(creator)
    ensures AddMembers([], [creator]) == Added([creator])
  {
    assert [creator][1..] == [];
    assert [] + [creator] == [creator];
  }

  lemma AddNone(acc: seq<Bytes>)
    ensures AddMembers(acc, []) == Added(acc)
  {
  }

  class GroupNode {
    var id: Bytes
    var name: Bytes
    var creator: Bytes
    const slots: array<Bytes>
    var memberCount: nat
    var next: GroupNode?
    ghost var Value: Group

    constructor (name: Bytes, creator: Bytes)
      ensures fresh(slots) && slots.Length == GROUP_MAX_MEMBERS && memberCount == 0
      ensures Ok() && Value == Group([], name, creator, [])
    {
      slots := new Bytes[GROUP_MAX_MEMBERS](_ => []);
      this.id, this.name, this.creator := [], name, creator;
      memberCount, next := 0, null;
      Value := Group([], name, creator, []);
    }

    /** `Value` is the group that the slots in use spell out. */
    ghost predicate Ok()
      reads this`id, this`name, this`creator, this`memberCount, this`Value, slots
    {
      slots.Length == GROUP_MAX_MEMBERS && memberCount <= GROUP_MAX_MEMBERS
      && Value == Group(id, name, creator, slots[..memberCount])
    }

    /** `copy_snapshot` */
    function Snapshot(): (g: Group)
      requires Ok()
      reads this, slots
      ensures g == Value
    {
      Group(id, name, creator, slots[..memberCount])
    }

    method SetIdAndNext(id: Bytes, next: GroupNode?)
      requires Ok()
      modifies this`id, this`Value, this`next
      ensures Ok() && this.next == next && Value == old(Value).(id := id)
    {
      this.id, this.next := id, next;
      Value := Value.(id := id);
    }

    /** `member_index` */
    method FindMember(username: Bytes) returns (index: int)
      requires Ok()
      ensures index == MemberIndex(Value.members, username)
    {
      if !ValidName(username) {
        return -1;
      }
      var i := 0;
      while i < memberCount
        invariant i <= memberCount && username !in slots[..i]
      {
        if slots[i] == username {
          FirstIndexIsMemberIndex(slots[..memberCount], username, i);
          return i;
        }
        i := i + 1;
      }
      return -1;
    }

    /** `add_member`: `error` is set only when the name is bad or the group full. */
    method AddMember(username: Bytes) returns (error: Option<GroupError>, added: bool)
      requires Ok()
      modifies this`memberCount, this`Value, slots
      ensures Ok()
      ensures var ms := old(Value).members;
              var r := AddMembers(ms, [username]);
              && (r.AddFailed? ==> error == Some(r.error) && !added && Value == old(Value))
              && (r.Added? ==> error == None && Value == old(Value).(members := r.members)
                               && (added <==> username !in ms) && r.members == if added then ms + [username] else ms)
    {
      ghost var ms := Value.members;
      assert [username][1..] == [];
      if !ValidName(username) {
        return Some(Invalid), false;
      }
      var index := FindMember(username);
      if index >= 0 {
        return None, false;
      }
      if memberCount >= GROUP_MAX_MEMBERS {
        return Some(Full), false;
      }
      slots[memberCount] := username;
      memberCount := memberCount + 1;
      Value := Value.(members := ms + [username]);
      assert slots[..memberCount] == ms + [username];
      assert AddMembers(ms, [username]) == AddMembers(ms + [username], []);
      return None, true;
    }

    /** The creator and the named members, as `group_store_create` adds them before taking the lock. */
    method AddCreatorAndMembers(members: seq<Bytes>) returns (error: Option<GroupError>, hasNonCreator: bool)
      requires Ok() && Value.members == [] && ValidName(creator)
      modifies this`memberCount, this`Value, slots
      ensures Ok()
      ensures var r := AddMembers([creator], members);
              && (r.AddFailed? ==> error == Some(r.error))
              && (r.Added? ==> error == None && Value == old(Value).(members := r.members) && 1 <= |r.members|
                               && (hasNonCreator <==> |r.members| > 1))
    {
      hide AddMembers, Ok, ValidName;
      var added;
      AddFirst(creator);
      error, added := AddMember(creator);
      hasNonCreator := false;
      var i := 0;
      assert members[0..] == members;
      while i < |members|
        invariant i <= |members| && Ok() && Value == old(Value).(members := Value.members)
        invariant creator in Value.members && 1 <= |Value.members| && (hasNonCreator <==> |Value.members| > 1)
        invariant AddMembers([creator], members) == AddMembers(Value.members, members[i..])
      {
        AddNext(Value.members, members, i);
        if !ValidName(members[i]) {
          return Some(Invalid), false;
        }
        error, added := AddMember(members[i]);
        if error.Some? {
          return;
        }
        if added && members[i] != creator {
          hasNonCreator := true;
        }
        i := i + 1;
      }
      AddNone(Value.members);
      assert members[i..] == [];
      error := None;
    }

    /** `remove_member_at`: the later members move down one slot; an index out of range changes nothing. */
    method RemoveMemberAt(index: nat)
      requires Ok()
      modifies this`memberCount, this`Value, slots
      ensures Ok() && Value == if index < |old(Value).members| then Without(old(Value), index) else old(Value)
    {
      if index >= memberCount {
        return;
      }
      var i := index;
      while i + 1 < memberCount
        invariant memberCount == old(memberCount) && Value == old(Value) && index <= i < memberCount
        invariant forall k :: 0 <= k < index ==> slots[k] == old(slots[k])
        invariant forall k :: index <= k < i ==> slots[k] == old(slots[k + 1])
        invariant forall k :: i < k < memberCount ==> slots[k] == old(slots[k])
      {
        slots[i] := slots[i + 1];
        i := i + 1;
      }
      slots[memberCount - 1] := [];
      memberCount := memberCount - 1;
      assert old(slots[..memberCount]) == old(Value).members;
      Value := Without(Value, index);
      assert slots[..memberCount] == RemoveAt(old(slots[..memberCount]), index);
    }
  }

  lemma {:induction false} FirstIndexIsMemberIndex(ms: seq<Bytes>, name: Bytes, i: nat)
    requires i < |ms| && ms[i] == name && name !in ms[..i] && ValidName(name)
    ensures MemberIndex(ms, name) == i
  {
    if i > 0 {
      assert ms[..i][0] == ms[0] && ms[1..][..i - 1] == ms[..i][1..];
      FirstIndexIsMemberIndex(ms[1..], name, i - 1);
    }
  }

  lemma FormatIdWraps(n: nat)
    ensures FormatId(Wrap(n)) == FormatId(n)
    ensures Wrap(Wrap(n) + 1) == Wrap(n + 1)
  {
    hide Padded6;
  }

  lemma {:induction false} GroupsOfAppend(a: seq<Group>, b: seq<Group>, name: Bytes)
    ensures GroupsOf(a + b, name) == GroupsOf(a, name) + GroupsOf(b, name)
  {
    if a == [] {
      assert a + b == b;
    } else {
      GroupsOfAppend(a[1..], b, name);
      assert (a + b)[0] == a[0] && (a + b)[1..] == a[1..] + b;
      Regroup(if name in a[0].members then [a[0]] else [], GroupsOf(a[1..], name), GroupsOf(b, name));
    }
  }

  lemma GroupsOfOneMore(gs: seq<Group>, name: Bytes, k: nat)
    requires k < |gs|
    ensures GroupsOf(gs[..k + 1], name) == GroupsOf(gs[..k], name) + if name in gs[k].members then [gs[k]] else []
    ensures GroupsOf(gs, name) == GroupsOf(gs[..k + 1], name) + GroupsOf(gs[k + 1..], name)
  {
    assert gs[..k + 1] == gs[..k] + [gs[k]] && gs == gs[..k + 1] + gs[k + 1..];
    GroupsOfAppend(gs[..k], [gs[k]], name);
    GroupsOfAppend(gs[..k + 1], gs[k + 1..], name);
    assert [gs[k]][1..] == [];
  }

  lemma GroupsOfNext(gs: seq<Group>, name: Bytes, k: nat)
    requires k < |gs|
    ensures GroupsOf(gs[k..], name) == if name in gs[k].members then [gs[k]] + GroupsOf(gs[k + 1..], name)
                                       else GroupsOf(gs[k + 1..], name)
  {
    assert gs[k..][0] == gs[k] && gs[k..][1..] == gs[k + 1..];
  }

  lemma GroupsOfNone(gs: seq<Group>, name: Bytes)
    ensures gs == [] ==> GroupsOf(gs, name) == []
  {
  }

  lemma {:induction false} RecordsAppend(a: seq<Group>, b: seq<Group>)
    ensures Records(a + b) == Records(a) + Records(b)
  {
    hide RecordFields;
    if a == [] {
      assert a + b == b;
    } else {
      RecordsAppend(a[1..], b);
      assert (a + b)[0] == a[0] && (a + b)[1..] == a[1..] + b;
      Regroup(RecordFields(a[0]), Records(a[1..]), Records(b));
    }
  }

  /** A list that already fails to fit after some of its groups fails as a whole. */
  lemma ListFrom(count: Bytes, written: seq<Group>, rest: seq<Group>)
    ensures var part, whole := Fill([], [count] + Records(written)), Fill([], [count] + Records(written + rest));
            (!part.ok ==> !whole.ok) && (rest == [] ==> whole == part)
    ensures written == [] ==> [count] + Records(written) == [count]
  {
    hide Fill, RecordFields;
    RecordsAppend(written, rest);
    assert [count] + Records(written + rest) == [count] + Records(written) + Records(rest);
    FillInTurn([], [count] + Records(written), Records(rest));
    if rest == [] { assert written + rest == written; }
  }

  lemma ListOneMore(count: Bytes, written: seq<Group>, g: Group)
    ensures [count] + Records(written + [g]) == [count] + Records(written) + RecordFields(g)
    ensures Fill([], [count] + Records(written + [g]))
         == if Fill([], [count] + Records(written)).ok
            then Fill(Fill([], [count] + Records(written)).data, RecordFields(g)) else Fill([], [count] + Records(written))
  {
    hide Fill, RecordFields;
    RecordsAppend(written, [g]);
    assert [g][1..] == [] && Records([g]) == RecordFields(g) + [] && RecordFields(g) + [] == RecordFields(g);
    FillInTurn([], [count] + Records(written), RecordFields(g));
  }

  lemma RemovalUnfolds(gs: seq<Group>, name: Bytes, k: nat)
    requires k < |gs|
    ensures var i, rest := MemberIndex(gs[k].members, name), RemoveMember(gs[k + 1..], name);
            RemoveMember(gs[k..], name) == if i < 0 then [gs[k]] + rest else if |gs[k].members| == 1 then rest
                                           else [Without(gs[k], i)] + rest
    ensures var i, rest := MemberIndex(gs[k].members, name), Changed(gs[k + 1..], name);
            Changed(gs[k..], name) == if i < 0 || |gs[k].members| == 1 then rest else [Without(gs[k], i)] + rest
  {
    assert gs[k..][0] == gs[k] && gs[k..][1..] == gs[k + 1..];
  }

  ghost predicate RemovedSoFar(start: seq<Group>, name: Bytes, gs: seq<Group>, done: nat, all: seq<Group>) {
    && done <= |gs|
    && RemoveMember(start, name) == gs[..done] + RemoveMember(gs[done..], name)
    && Changed(start, name) == all + Changed(gs[done..], name)
  }

  /** At most `max` elements from the front. */
  function First(all: seq<Group>, max: nat): (r: seq<Group>)
    ensures |r| == Min(|all|, max)
  {
    all[..Min(|all|, max)]
  }

  function FullIf(full: bool): Option<GroupError> {
    if full then Some(Full) else None
  }

  lemma FullIfIs()
    ensures FullIf(false) == None && FullIf(true) == Some(Full)
  {
  }

  lemma FirstOfNone(max: nat)
    ensures First([], max) == []
  {
  }

  lemma FirstOfOneMore(all: seq<Group>, g: Group, max: nat)
    ensures |First(all, max)| >= max <==> |all| >= max
    ensures First(all + [g], max) == if |First(all, max)| >= max then First(all, max) else First(all, max) + [g]
  {
  }

  lemma RemovalStarts(gs: seq<Group>, name: Bytes)
    ensures RemovedSoFar(gs, name, gs, 0, [])
  {
    assert gs[0..] == gs;
  }

  lemma RemovalEnds(start: seq<Group>, name: Bytes, gs: seq<Group>, all: seq<Group>)
    requires RemovedSoFar(start, name, gs, |gs|, all)
    ensures RemoveMember(start, name) == gs && Changed(start, name) == all
  {
    assert gs[|gs|..] == [] && gs[..|gs|] == gs;
  }

  lemma RemovedTwice<T>(s: seq<T>, k: nat, x: T)
    requires k < |s|
    ensures RemoveAt(s[k := x], k) == RemoveAt(s, k)
  {
  }

  lemma RemovalAdvances(start: seq<Group>, name: Bytes, gs: seq<Group>, done: nat, all: seq<Group>)
    requires RemovedSoFar(start, name, gs, done, all) && done < |gs|
    ensures var i := MemberIndex(gs[done].members, name);
            && (i < 0 ==> RemovedSoFar(start, name, gs, done + 1, all))
            && (i >= 0 && |gs[done].members| == 1 ==> RemovedSoFar(start, name, RemoveAt(gs, done), done, all))
            && (i >= 0 && |gs[done].members| > 1 ==>
                  var g := Without(gs[done], i);
                  RemovedSoFar(start, name, gs[done := g], done + 1, all + [g]))
  {
    hide MemberIndex, RemoveMember, Changed, RemoveAt, Without;
    RemovalUnfolds(gs, name, done);
    var i, rest, more := MemberIndex(gs[done].members, name), RemoveMember(gs[done + 1..], name), Changed(gs[done + 1..], name);
    if i < 0 {
      Regroup(gs[..done], [gs[done]], rest);
      assert gs[..done + 1] == gs[..done] + [gs[done]];
    } else if |gs[done].members| == 1 {
      var after := RemoveAt(gs, done);
      assert after[..done] == gs[..done] && after[done..] == gs[done + 1..];
    } else {
      var g := Without(gs[done], i);
      var after := gs[done := g];
      Regroup(gs[..done], [g], rest);
      Regroup(all, [g], more);
      assert after[..done + 1] == gs[..done] + [g] && after[done + 1..] == gs[done + 1..];
    }
  }

  datatype Lookup = Found(group: Group) | Missing(error: GroupError)

  function FindGroup(gs: seq<Group>, groupId: Bytes): (r: Lookup) {
    if !ValidGroupId(groupId) then Missing(Invalid)
    else if gs == [] then Missing(NotFound)
    else if gs[0].id == groupId then Found(gs[0])
    else FindGroup(gs[1..], groupId)
  }

  datatype ListPayload = Listed(payload: Bytes) | ListFailed(error: GroupError)

  /** The list of a user's groups, head first, or why there is none. */
  function ListPayloadOf(gs: seq<Group>, username: Bytes): ListPayload {
    if !ValidName(username) then ListFailed(Invalid)
    else match Build(ListFields(GroupsOf(gs, username)))
      case None => ListFailed(GroupError.Payload)
      case Some(payload) => Listed(payload)
  }

  class GroupStore {
    var head: GroupNode?
    var nextId: nat
    var count: nat

    ghost var nodes: seq<GroupNode>
    ghost var Contents: seq<Group>
    ghost var Issued: nat
    ghost var Repr: set<object>

    static ghost function SlotsOf(ns: seq<GroupNode>): set<object> {
      set i | 0 <= i < |ns| :: ns[i].slots
    }

    /** Following the list from its first node spells out the groups `gs`. */
    static ghost predicate Spells(ns: seq<GroupNode>, gs: seq<Group>)
      reads ns, SlotsOf(ns)
    {
      && |ns| == |gs|
      && (forall i :: 0 <= i < |ns| ==> ns[i].Ok() && gs[i] == ns[i].Value)
      && (forall i {:trigger ns[i].next} :: 0 <= i < |ns| ==> ns[i].next == NodeAt(ns, i + 1))
    }

    static lemma SpellsOneMore(node: GroupNode, ns: seq<GroupNode>, gs: seq<Group>)
      requires Spells(ns, gs) && node.Ok() && node.next == NodeAt(ns, 0)
      ensures Spells([node] + ns, [node.Value] + gs)
    {
      hide GroupNode.Ok;
    }

    static lemma SpellsStill(ns: seq<GroupNode>, gs: seq<Group>)
      requires |ns| == |gs|
      requires forall i :: 0 <= i < |ns| ==> ns[i].Ok() && gs[i] == ns[i].Value
      requires forall i {:trigger ns[i].next} :: 0 <= i < |ns| ==> ns[i].next == NodeAt(ns, i + 1)
      ensures Spells(ns, gs)
    {
      hide GroupNode.Ok;
    }

    /** A node that its predecessor skips is out of the list. */
    static lemma SpellsWithout(ns: seq<GroupNode>, gs: seq<Group>, k: nat)
      requires k < |ns| == |gs|
      requires forall i :: 0 <= i < |ns| ==> ns[i].Ok() && gs[i] == ns[i].Value
      requires forall i {:trigger ns[i].next} :: 0 <= i < |ns| ==> ns[i].next == NodeAt(ns, if i == k - 1 then k + 1 else i + 1)
      ensures Spells(RemoveAt(ns, k), RemoveAt(gs, k))
    {
      hide GroupNode.Ok;
    }

    /** No two positions of the list share a node or its slots. */
    static ghost predicate Apart(ns: seq<GroupNode>) {
      forall i, j :: 0 <= i < j < |ns| ==> ns[i] != ns[j] && ns[i].slots != ns[j].slots
    }

    static ghost predicate Owned(ns: seq<GroupNode>, repr: set<object>) {
      forall i :: 0 <= i < |ns| ==> ns[i] in repr && ns[i].slots in repr
    }

    static lemma ApartAfterRemoval(ns: seq<GroupNode>, k: nat)
      requires Apart(ns) && k < |ns|
      ensures Apart(RemoveAt(ns, k))
    {
    }

    static lemma ApartAfterLink(node: GroupNode, ns: seq<GroupNode>, repr: set<object>)
      requires Apart(ns) && Owned(ns, repr) && node !in repr && node.slots !in repr
      ensures Apart([node] + ns) && Owned([node] + ns, repr + {node, node.slots})
    {
    }

    static ghost function NodeAt(ns: seq<GroupNode>, i: nat): GroupNode? {
      if i < |ns| then ns[i] else null
    }

    ghost predicate Valid()
      reads this, Repr
      ensures Valid() ==> this in Repr
    {
      && this in Repr
      && Owned(nodes, Repr) && Apart(nodes)
      && Spells(nodes, Contents) && head == NodeAt(nodes, 0)
      && count == |Contents|
      && nextId == Wrap(Issued)
    }

    lemma NodeFacts(k: nat)
      requires Valid()
      ensures this in Repr && |nodes| == |Contents| && head == NodeAt(nodes, 0)
      ensures k < |nodes| ==> nodes[k] in Repr && nodes[k].slots in Repr && nodes[k].Ok()
                              && nodes[k].Value == Contents[k] && nodes[k].next == NodeAt(nodes, k + 1)
                              && nodes[k].memberCount == |Contents[k].members|
    {
    }

    /** `group_store_init` */
    constructor ()
      ensures Valid() && fresh(Repr)
      ensures Contents == [] && Issued == 1
    {
      head, nextId, count := null, 1, 0;
      nodes, Contents, Issued, Repr := [], [], 1, {this};
    }

    /** `group_store_create`; on failure the store is unchanged. */
    method Create(creator: Bytes, name: Bytes, members: seq<Bytes>) returns (r: CreateResult)
      requires Valid()
      modifies Repr
      ensures Valid() && fresh(Repr - old(Repr))
      ensures r == CreateGroup(old(Contents), old(Issued), creator, name, members)
      ensures r.Created? ==> Contents == [r.group] + old(Contents) && Issued == old(Issued) + 1
      ensures r.CreateFailed? ==> Contents == old(Contents) && Issued == old(Issued)
    {
      if !ValidName(creator) || !ValidGroupName(name) || |members| == 0 {
        return CreateFailed(Invalid);
      }
      var node := new GroupNode(name, creator);
      var error, hasNonCreator := node.AddCreatorAndMembers(members);
      if error.Some? {
        return CreateFailed(error.value);
      }
      assert AddMembers([creator], members).Added?;
      if !hasNonCreator {
        return CreateFailed(Invalid);
      }
      if count >= GROUP_MAX_GROUPS {
        return CreateFailed(Full);
      }
      Link(node);
      return Created(node.Snapshot());
    }

    /** Gives the next identifier to a group and puts it at the head of the list. */
    method Link(node: GroupNode)
      requires Valid() && node.Ok() && node !in Repr && node.slots !in Repr
      modifies this, node
      ensures Valid() && Repr == old(Repr) + {node, node.slots}
      ensures node.Ok() && node.Value == old(node.Value).(id := FormatId(old(Issued)))
      ensures Contents == [node.Value] + old(Contents) && Issued == old(Issued) + 1
    {
      FormatIdWraps(Issued);
      hide Apart, Owned, FormatId, Wrap, GroupNode.Ok;
      node.SetIdAndNext(FormatId(nextId), head);
      PushFront(node);
      nextId := Wrap(nextId + 1);
      Issued := Issued + 1;
      SpellsStill(nodes, Contents);
      hide Spells;
    }

    method PushFront(node: GroupNode)
      requires Valid() && node.Ok() && node !in Repr && node.slots !in Repr && node.next == head
      modifies this`head, this`count, this`nodes, this`Contents, this`Repr
      ensures Valid() && Repr == old(Repr) + {node, node.slots}
      ensures Contents == [node.Value] + old(Contents)
    {
      ghost var ns, gs := nodes, Contents;
      ApartAfterLink(node, ns, Repr);
      hide Apart, Owned, Wrap, GroupNode.Ok;
      head := node;
      count := count + 1;
      nodes := [node] + ns;
      Contents := [node.Value] + gs;
      Repr := Repr + {node, node.slots};
      SpellsStill(ns, gs);
      SpellsOneMore(node, ns, gs);
      hide Spells;
      assert head == NodeAt(nodes, 0);
    }

    /** `group_store_get_snapshot` */
    method GetSnapshot(groupId: Bytes) returns (r: Lookup)
      requires Valid()
      ensures r == FindGroup(Contents, groupId)
    {
      if !ValidGroupId(groupId) {
        return Missing(Invalid);
      }
      var cur := head;
      ghost var k := 0;
      assert Contents[0..] == Contents;
      while cur != null
        invariant k <= |nodes| && cur == NodeAt(nodes, k)
        invariant FindGroup(Contents, groupId) == FindGroup(Contents[k..], groupId)
        decreases |nodes| - k
      {
        assert Contents[k..][0] == Contents[k] && Contents[k..][1..] == Contents[k + 1..];
        if cur.id == groupId {
          return Found(cur.Snapshot());
        }
        cur := cur.next;
        k := k + 1;
      }
      assert Contents[k..] == [];
      return Missing(NotFound);
    }

    method CountGroupsOf(username: Bytes) returns (n: nat)
      requires Valid() && ValidName(username)
      ensures n == |GroupsOf(Contents, username)|
    {
      n := 0;
      var cur := head;
      ghost var k := 0;
      while cur != null
        invariant k <= |nodes| && cur == NodeAt(nodes, k) && n == |GroupsOf(Contents[..k], username)|
        decreases |nodes| - k
      {
        GroupsOfOneMore(Contents, username, k);
        var index := cur.FindMember(username);
        if index >= 0 {
          n := n + 1;
        }
        cur := cur.next;
        k := k + 1;
      }
      assert Contents[..k] == Contents;
    }

    /** `group_store_build_list_payload` */
    method BuildListPayload(username: Bytes) returns (r: ListPayload)
      requires Valid()
      ensures r == ListPayloadOf(Contents, username)
    {
      hide Valid, GroupsOf, Build, ListFields;
      if !ValidName(username) {
        return ListFailed(Invalid);
      }
      var payload := BuildList(username);
      return if payload.None? then ListFailed(GroupError.Payload) else Listed(payload.value);
    }

    /** Both passes over the list, the second only as far as the records fit. */
    method BuildList(username: Bytes) returns (r: Option<Bytes>)
      requires Valid() && ValidName(username)
      ensures r == Build(ListFields(GroupsOf(Contents, username)))
    {
      hide Valid, Fill, GroupsOf, Records, RecordFields, MemberIndex, GroupNode.Ok, Digits;
      NodeFacts(0);
      var payload := new GroupPayload();
      var groupCount := CountGroupsOf(username);
      var countText := Digits(groupCount);
      ghost var mine := GroupsOf(Contents, username);
      var ok := payload.Add(countText);
      ListFrom(countText, [], mine);
      assert [] + mine == mine;
      if !ok {
        return None;
      }
      var cur := head;
      ghost var k := 0;
      ghost var written: seq<Group> := [];
      assert Contents[0..] == Contents;
      while cur != null
        invariant k <= |nodes| && cur == NodeAt(nodes, k) && payload.Valid()
        invariant fresh(payload) && fresh(payload.data)
        invariant mine == written + GroupsOf(Contents[k..], username)
        invariant Fill([], [countText] + Records(written)) == Filled(payload.Contents(), true)
        decreases |nodes| - k
      {
        ghost var rest := GroupsOf(Contents[k + 1..], username);
        GroupsOfNext(Contents, username, k);
        NodeFacts(k);
        var index := cur.FindMember(username);
        if index >= 0 {
          ListFrom(countText, written + [Contents[k]], rest);
          ListOneMore(countText, written, Contents[k]);
          Regroup(written, [Contents[k]], rest);
          ok := payload.BuildRecord(cur.Snapshot());
          if !ok {
            return None;
          }
          written := written + [Contents[k]];
        }
        cur := cur.next;
        k := k + 1;
      }
      GroupsOfNone(Contents[k..], username);
      assert written + [] == written;
      return Some(payload.data[..payload.length]);
    }

    /** One group loses the member in the given slot. */
    method ShrinkAt(cur: GroupNode, ghost k: nat, index: nat)
      requires Valid() && k < |nodes| && cur == nodes[k] && index < |cur.Value.members|
      modifies cur`memberCount, cur`Value, cur.slots, this`Contents
      ensures Valid() && Contents == old(Contents)[k := Without(old(Contents)[k], index)]
    {
      hide GroupNode.Ok;
      cur.RemoveMemberAt(index);
      Contents := Contents[k := Without(Contents[k], index)];
    }

    /** Takes one node out of the list; `prev` is the node before it. */
    method Unlink(prev: GroupNode?, cur: GroupNode, ghost k: nat)
      requires Valid() && k < |nodes| && cur == nodes[k]
      requires prev == if k == 0 then null else nodes[k - 1]
      modifies this`head, this`count, this`nodes, this`Contents, prev
      ensures Valid() && nodes == RemoveAt(old(nodes), k) && Contents == RemoveAt(old(Contents), k)
    {
      ghost var ns, gs := nodes, Contents;
      assert prev != null ==> nodes[k - 1] != nodes[k];
      ApartAfterRemoval(nodes, k);
      assert forall i :: 0 <= i < |ns| && i != k - 1 ==> prev != ns[i];
      hide Apart, GroupNode.Ok;
      if prev == null {
        head := cur.next;
      } else {
        prev.next := cur.next;
      }
      nodes := RemoveAt(ns, k);
      Contents := RemoveAt(gs, k);
      count := count - 1;
      SpellsWithout(ns, gs, k);
      hide Spells, RemoveAt;
      assert Owned(nodes, Repr) && head == NodeAt(nodes, 0);
    }

    /** `cur` is the node at position `k` of the list and `prev` the one before it. */
    ghost predicate At(prev: GroupNode?, cur: GroupNode?, k: nat)
      reads this`nodes, this`Repr
    {
      && k <= |nodes| && cur == NodeAt(nodes, k) && prev == (if k == 0 then null else nodes[k - 1])
      && (prev != null ==> prev in Repr)
    }

    lemma AtStart()
      requires Valid()
      ensures At(null, head, 0) && |nodes| == |Contents|
    {
    }

    lemma AtNode(prev: GroupNode?, cur: GroupNode, k: nat)
      requires Valid() && At(prev, cur, k)
      ensures k < |nodes| == |Contents| && cur == nodes[k] && prev == (if k == 0 then null else nodes[k - 1])
      ensures cur in Repr && cur.slots in Repr && (prev != null ==> prev in Repr)
      ensures cur.Ok() && cur.Value == Contents[k] && cur.next == NodeAt(nodes, k + 1) && At(cur, cur.next, k + 1)
    {
    }

    lemma AtAfterUnlink(ns: seq<GroupNode>, prev: GroupNode?, next: GroupNode?, k: nat)
      requires k < |ns| && nodes == RemoveAt(ns, k) && next == NodeAt(ns, k + 1)
      requires prev == (if k == 0 then null else ns[k - 1]) && (prev != null ==> prev in Repr)
      ensures At(prev, next, k)
    {
    }

    lemma AtEnd(prev: GroupNode?, k: nat)
      requires Valid() && At(prev, null, k)
      ensures k == |Contents|
    {
    }

    /**
     `group_store_remove_member`: unlinks emptied groups in place. `changes` are the first
     `maxChanges` snapshots of surviving groups; with more of them the error is GROUP_ERR_FULL.
     */
    method RemoveMemberEverywhere(username: Bytes, maxChanges: nat) returns (error: Option<GroupError>, changes: seq<Group>)
      requires Valid()
      modifies Repr
      ensures Valid() && Repr == old(Repr) && Issued == old(Issued)
      ensures !ValidName(username) ==> error == Some(Invalid) && changes == [] && Contents == old(Contents)
      ensures ValidName(username) ==>
                && Contents == RemoveMember(old(Contents), username)
                && changes == First(Changed(old(Contents), username), maxChanges)
                && error == FullIf(|Changed(old(Contents), username)| > maxChanges)
    {
      hide Valid, RemoveMember, Changed, First;
      if !ValidName(username) {
        return Some(Invalid), [];
      }
      error, changes := RemoveFromAll(username, maxChanges);
    }

    /** The loop over the list. */
    method RemoveFromAll(username: Bytes, maxChanges: nat) returns (error: Option<GroupError>, changes: seq<Group>)
      requires Valid() && ValidName(username)
      modifies Repr
      ensures Valid() && Repr == old(Repr) && Issued == old(Issued)
      ensures Contents == RemoveMember(old(Contents), username)
      ensures changes == First(Changed(old(Contents), username), maxChanges)
      ensures error == FullIf(|Changed(old(Contents), username)| > maxChanges)
    {
      hide Valid, Apart, RemoveAt, MemberIndex, RemoveMember, Changed, RemovedSoFar, GroupNode.Ok, ValidName, First, At, NodeAt, Min,
        Without, GroupNode.Snapshot, FullIf;
      AtStart();
      error, changes := None, [];
      var prev: GroupNode? := null;
      var cur := head;
      ghost var start := Contents;
      ghost var done: nat := 0;
      ghost var all: seq<Group> := [];
      RemovalStarts(Contents, username);
      FirstOfNone(maxChanges);
      FullIfIs();
      while cur != null
        invariant Valid() && Repr == old(Repr) && Issued == old(Issued)
        invariant At(prev, cur, done) && done <= |nodes| == |Contents|
        invariant RemovedSoFar(start, username, Contents, done, all)
        invariant changes == First(all, maxChanges) && error == FullIf(|all| > maxChanges)
        decreases |nodes| - done
      {
        AtNode(prev, cur, done);
        var next := cur.next;
        ghost var ns, before := nodes, Contents;
        RemovalAdvances(start, username, before, done, all);
        var index := cur.FindMember(username);
        if index < 0 {
          prev := cur;
          cur := next;
          done := done + 1;
          continue;
        }
        ShrinkAt(cur, done, index);
        NodeFacts(done);
        if cur.memberCount == 0 {
          Unlink(prev, cur, done);
          NodeFacts(done);
          AtAfterUnlink(ns, prev, next, done);
          RemovedTwice(before, done, Without(before[done], index));
          cur := next;
          continue;
        }
        FirstOfOneMore(all, Contents[done], maxChanges);
        if |changes| >= maxChanges {
          error := Some(Full);
        } else {
          changes := changes + [cur.Snapshot()];
        }
        all := all + [Contents[done]];
        prev := cur;
        cur := next;
        done := done + 1;
      }
      AtEnd(prev, done);
      RemovalEnds(start, username, Contents, all);
    }
  }

  /** How far the walk has come: the first `done` groups are settled, `all` are the changes so far. */
}
