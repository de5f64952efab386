/**
 The NUL-separated group payloads: written by the C builder (common/group.c), read by the Web
 gateway (web/lib/protocol.js).
 */
module Payload {
  import opened Basics
  import opened Decimal
  import opened GroupModel

  const EVENT_CREATED: Bytes := [99, 114, 101, 97, 116, 101, 100]
  const EVENT_MEMBER_LEFT: Bytes := [109, 101, 109, 98, 101, 114, 95, 108, 101, 102, 116]

  predicate NulFree(fs: seq<Bytes>) {
    forall i :: 0 <= i < |fs| ==> NUL !in fs[i]
  }

  /** Every field followed by its terminator. */
  function Join(fs: seq<Bytes>): Bytes {
    if fs == [] then [] else fs[0] + [NUL] + Join(fs[1..])
  }

  lemma {:induction false} JoinAppend(a: seq<Bytes>, b: seq<Bytes>)
    ensures Join(a + b) == Join(a) + Join(b)
  {
    if a == [] {
      assert a + b == b;
    } else {
      JoinAppend(a[1..], b);
      assert (a + b)[0] == a[0] && (a + b)[1..] == a[1..] + b;
      Regroup(a[0] + [NUL], Join(a[1..]), Join(b));
    }
  }

  // ---------- the C builder ----------

  /** What is in the buffer after adding fields until one does not fit, and whether all did. */
  datatype Filled = Filled(data: Bytes, ok: bool)

  function Fill(acc: Bytes, fs: seq<Bytes>): Filled
    decreases |fs|
  {
    if fs == [] then Filled(acc, true)
    else if |acc| + |fs[0]| + 1 > PACKET_DATA_MAX then Filled(acc, false)
    else Fill(acc + fs[0] + [NUL], fs[1..])
  }

  /** Fields fit exactly when their lengths and terminators sum to what is left of the 1024 bytes. */
  lemma {:induction false} FillMeaning(acc: Bytes, fs: seq<Bytes>)
    requires |acc| <= PACKET_DATA_MAX
    ensures Fill(acc, fs).ok <==> |acc| + |Join(fs)| <= PACKET_DATA_MAX
    ensures Fill(acc, fs).ok ==> Fill(acc, fs).data == acc + Join(fs)
    decreases |fs|
  {
    if fs == [] {
      assert acc + Join(fs) == acc;
    } else if |acc| + |fs[0]| + 1 <= PACKET_DATA_MAX {
      FillMeaning(acc + fs[0] + [NUL], fs[1..]);
      assert acc + fs[0] + [NUL] + Join(fs[1..]) == acc + (fs[0] + [NUL] + Join(fs[1..]));
    }
  }

  lemma {:induction false} FillInTurn(acc: Bytes, a: seq<Bytes>, b: seq<Bytes>)
    ensures Fill(acc, a + b) == if Fill(acc, a).ok then Fill(Fill(acc, a).data, b) else Fill(acc, a)
    decreases |a|
  {
    if a == [] {
      assert a + b == b;
    } else {
      assert (a + b)[1..] == a[1..] + b;
      if |acc| + |a[0]| + 1 <= PACKET_DATA_MAX {
        FillInTurn(acc + a[0] + [NUL], a[1..], b);
      }
    }
  }

  lemma FillFour(acc: Bytes, a: Bytes, b: Bytes, c: Bytes, d: Bytes)
    ensures var f1 := Fill(acc, [a]);
            var f2 := if f1.ok then Fill(f1.data, [b]) else f1;
            var f3 := if f2.ok then Fill(f2.data, [c]) else f2;
            Fill(acc, [a, b, c, d]) == if f3.ok then Fill(f3.data, [d]) else f3
  {
    FillInTurn(acc, [a], [b, c, d]);
    FillInTurn(acc, [a, b], [c, d]);
    FillInTurn(acc, [a, b, c], [d]);
    FillInTurn(acc, [a], [b]);
    FillInTurn(acc, [a, b], [c]);
    assert [a] + [b] == [a, b] && [a, b] + [c] == [a, b, c] && [a, b, c] + [d] == [a, b, c, d];
  }

  function RecordFields(g: Group): seq<Bytes> {
    [g.id, g.name, g.creator, Digits(|g.members|)] + g.members
  }

  function Records(gs: seq<Group>): seq<Bytes> {
    if gs == [] then [] else RecordFields(gs[0]) + Records(gs[1..])
  }

  function EventFields(event: Bytes, g: Group): seq<Bytes> {
    [event] + RecordFields(g)
  }

  function ListFields(gs: seq<Group>): seq<Bytes> {
    [Digits(|gs|)] + Records(gs)
  }

  function MessageFields(g: Group, text: Bytes): seq<Bytes> {
    [g.id, g.name, text]
  }

  /** The bytes of a payload, `None` when it does not fit. */
  function Build(fs: seq<Bytes>): Option<Bytes> {
    if Fill([], fs).ok then Some(Fill([], fs).data) else None
  }

  lemma BuildMeaning(fs: seq<Bytes>)
    ensures Build(fs) == if |Join(fs)| <= PACKET_DATA_MAX then Some(Join(fs)) else None
  {
    FillMeaning([], fs);
    assert [] + Join(fs) == Join(fs);
  }

  class GroupPayload {
    const data: array<byte>
    var length: nat

    ghost predicate Valid()
      reads this
    {
      data.Length == PACKET_DATA_MAX && length <= PACKET_DATA_MAX
    }

    ghost function Contents(): Bytes
      requires Valid()
      reads this, data
    {
      data[..length]
    }

    constructor ()
      ensures Valid() && fresh(data) && Contents() == []
    {
      data := new byte[PACKET_DATA_MAX](_ => NUL);
      length := 0;
    }

    /** `group_payload_add` */
    method Add(field: Bytes) returns (ok: bool)
      requires Valid()
      modifies this`length, data
      ensures Valid() && Filled(Contents(), ok) == Fill(old(Contents()), [field])
    {
      var len := |field|;
      assert [field][1..] == [];
      if length + len + 1 > PACKET_DATA_MAX {
        return false;
      }
      forall i | 0 <= i < len {
        data[length + i] := field[i];
      }
      length := length + len;
      data[length] := NUL;
      length := length + 1;
      assert data[..length] == old(Contents()) + field + [NUL];
      return true;
    }

    /** `group_payload_build_record` */
    method BuildRecord(g: Group) returns (ok: bool)
      requires Valid()
      modifies this`length, data
      ensures Valid() && Filled(Contents(), ok) == Fill(old(Contents()), RecordFields(g))
    {
      hide Fill;
      var countText := Digits(|g.members|);
      ghost var start := Contents();
      ghost var head := [g.id, g.name, g.creator, countText];
      assert RecordFields(g) == head + g.members;
      FillFour(start, g.id, g.name, g.creator, countText);
      FillInTurn(start, head, g.members);
      ok := Add(g.id);
      if ok { ok := Add(g.name); }
      if ok { ok := Add(g.creator); }
      if ok { ok := Add(countText); }
      if !ok {
        return false;
      }
      assert head + g.members[..0] == head;
      var m := 0;
      while m < |g.members|
        invariant m <= |g.members| && Valid() && Fill(start, head + g.members[..m]) == Filled(Contents(), true)
      {
        FillInTurn(start, head + g.members[..m], [g.members[m]]);
        FillInTurn(start, head + g.members[..m + 1], g.members[m + 1..]);
        assert head + g.members[..m] + [g.members[m]] == head + g.members[..m + 1];
        assert head + g.members[..m + 1] + g.members[m + 1..] == RecordFields(g);
        ok := Add(g.members[m]);
        if !ok {
          return false;
        }
        m := m + 1;
      }
      assert head + g.members[..m] == RecordFields(g);
      return true;
    }
  }

  /** `group_payload_build_event` */
  method BuildEvent(event: Bytes, g: Group) returns (r: Option<Bytes>)
    ensures r == Build(EventFields(event, g))
  {
    FillInTurn([], [event], RecordFields(g));
    var payload := new GroupPayload();
    var ok := payload.Add(event);
    if !ok {
      return None;
    }
    ok := payload.BuildRecord(g);
    return if ok then Some(payload.data[..payload.length]) else None;
  }

  /** `group_payload_build_message`: an empty text is refused. */
  method BuildMessage(g: Group, text: Bytes) returns (r: Option<Bytes>)
    ensures r == if text == [] then None else Build(MessageFields(g, text))
  {
    if text == [] {
      return None;
    }
    FillInTurn([], [g.id], [g.name, text]);
    FillInTurn(Fill([], [g.id]).data, [g.name], [text]);
    assert [g.id] + [g.name, text] == MessageFields(g, text) && [g.name] + [text] == [g.name, text];
    var payload := new GroupPayload();
    var ok := payload.Add(g.id);
    if !ok {
      return None;
    }
    ok := payload.Add(g.name);
    if !ok {
      return None;
    }
    ok := payload.Add(text);
    return if ok then Some(payload.data[..payload.length]) else None;
  }

  // ---------- parsing ----------

  predicate Terminated(d: Bytes) {
    d == [] || d[|d| - 1] == NUL
  }

  /** The fields of a terminated payload: the text before each NUL. */
  function Fields(d: Bytes): (fs: seq<Bytes>)
    requires Terminated(d)
    ensures NulFree(fs)
  {
    if d == [] then [] else var f := CString(d); [f] + Fields(d[|f| + 1..])
  }

  lemma {:induction false} FieldsOfJoin(fs: seq<Bytes>)
    requires NulFree(fs)
    ensures Terminated(Join(fs)) && Fields(Join(fs)) == fs
  {
    if fs != [] {
      FieldsOfJoin(fs[1..]);
      CStringOf(fs[0], Join(fs[1..]));
      assert Join(fs)[|fs[0]| + 1..] == Join(fs[1..]);
    }
  }

  lemma {:induction false} JoinOfFields(d: Bytes)
    requires Terminated(d)
    ensures Join(Fields(d)) == d
  {
    if d != [] {
      var f := CString(d);
      JoinOfFields(d[|f| + 1..]);
      assert d == f + [NUL] + d[|f| + 1..];
      assert Fields(d)[1..] == Fields(d[|f| + 1..]);
    }
  }

  lemma FieldsStep(d: Bytes, start: nat, i: nat)
    requires start <= i < |d| && Terminated(d) && NUL !in d[start..i] && d[i] == NUL
    ensures Terminated(d[start..]) && Terminated(d[i + 1..])
    ensures Fields(d[start..]) == [d[start..i]] + Fields(d[i + 1..])
  {
    assert d[start..] == d[start..i] + [NUL] + d[i + 1..];
    CStringOf(d[start..i], d[i + 1..]);
    assert d[start..][|d[start..i]| + 1..] == d[i + 1..];
  }

  lemma NoFields()
    ensures Fields([]) == []
  {
  }

  predicate ParsesInC(d: Bytes) {
    |d| <= PACKET_DATA_MAX && Terminated(d) && |Fields(d)| <= GROUP_PAYLOAD_MAX_FIELDS
  }

  /** `group_payload_parse`; `None` is GROUP_ERR_PAYLOAD. */
  method ParseFields(d: Bytes) returns (r: Option<seq<Bytes>>)
    ensures r == if ParsesInC(d) then Some(Fields(d)) else None
  {
    hide Fields;
    NoFields();
    if |d| == 0 {
      return Some([]);
    }
    if |d| > PACKET_DATA_MAX || d[|d| - 1] != NUL {
      return None;
    }
    var fields: seq<Bytes> := [];
    var start := 0;
    var i := 0;
    assert d[0..] == d;
    while i < |d|
      invariant start <= i <= |d| && NUL !in d[start..i] && |fields| <= GROUP_PAYLOAD_MAX_FIELDS
      invariant Fields(d) == fields + Fields(d[start..])
      invariant i == |d| ==> start == i
    {
      if d[i] != NUL {
        assert d[start..i + 1] == d[start..i] + [d[i]];
        i := i + 1;
        continue;
      }
      FieldsStep(d, start, i);
      if |fields| >= GROUP_PAYLOAD_MAX_FIELDS {
        return None;
      }
      fields := fields + [d[start..i]];
      start := i + 1;
      i := i + 1;
    }
    assert d[start..] == [] && fields + [] == fields;
    return Some(fields);
  }

  /** `text.split('\0')` */
  function Split(s: Bytes): seq<Bytes> {
    var f := CString(s);
    if |f| == |s| then [f] else [f] + Split(s[|f| + 1..])
  }

  /** `decodeGroupFields` */
  function DecodeFields(d: Bytes): Option<seq<Bytes>> {
    if d == [] then Some([])
    else if d[|d| - 1] != NUL then None
    else Some(Split(d[..|d| - 1]))
  }

  lemma {:induction false} SplitIsFields(d: Bytes)
    requires d != [] && Terminated(d)
    ensures Split(d[..|d| - 1]) == Fields(d)
    decreases |d|
  {
    var f := CString(d);
    var s, t := d[..|d| - 1], d[|f| + 1..];
    assert d == f + [NUL] + t;
    if t == [] {
      assert s == f;
      CStringOf(f, []);
    } else {
      var u := t[..|t| - 1];
      assert s == f + [NUL] + u;
      CStringOf(f, u);
      SplitIsFields(t);
      assert s[|f| + 1..] == u;
    }
  }

  /**
   On payloads of up to 1024 bytes the C parser accepts exactly what the gateway splits into at most
   128 fields, with the same fields; and adding those fields again rebuilds the same bytes.
   */
  lemma BothParsersAgree(d: Bytes)
    ensures DecodeFields(d) == if Terminated(d) then Some(Fields(d)) else None
    ensures |d| <= 1024 ==> (ParsesInC(d) <==> DecodeFields(d).Some? && |DecodeFields(d).value| <= 128)
    ensures ParsesInC(d) ==> DecodeFields(d) == Some(Fields(d)) && Build(Fields(d)) == Some(d)
  {
    if d != [] && Terminated(d) { SplitIsFields(d); }
    if Terminated(d) {
      JoinOfFields(d);
      BuildMeaning(Fields(d));
    }
  }

  /** What the builder wrote is read back by both sides. */
  lemma BuiltPayloadParses(fs: seq<Bytes>)
    requires NulFree(fs) && Build(fs).Some?
    ensures DecodeFields(Build(fs).value) == Some(fs)
    ensures |fs| <= GROUP_PAYLOAD_MAX_FIELDS ==> ParsesInC(Build(fs).value) && Fields(Build(fs).value) == fs
  {
    BuildMeaning(fs);
    FieldsOfJoin(fs);
    BothParsersAgree(Join(fs));
  }

  /** `encodeGroupFields`: throws (`None`) on a NUL inside a field or over 1024 bytes in all. */
  method EncodeFields(fields: seq<Bytes>) returns (r: Option<Bytes>)
    ensures r == if NulFree(fields) then Build(fields) else None
  {
    BuildMeaning(fields);
    var chunks: Bytes := [];
    var i := 0;
    while i < |fields|
      invariant i <= |fields| && NulFree(fields[..i])
      invariant chunks == Join(fields[..i]) && |chunks| <= PACKET_DATA_MAX
    {
      if NUL in fields[i] {
        return None;
      }
      JoinAppend(fields[..i], [fields[i]]);
      JoinAppend(fields[..i + 1], fields[i + 1..]);
      assert fields[..i] + [fields[i]] == fields[..i + 1] && fields[..i + 1] + fields[i + 1..] == fields;
      assert Join([fields[i]]) == fields[i] + [NUL] + Join([]);
      var total := |chunks| + |fields[i]| + 1;
      if total > PACKET_DATA_MAX {
        return None;
      }
      chunks := chunks + (fields[i] + [NUL]);
      i := i + 1;
    }
    assert fields[..i] == fields;
    return Some(chunks);
  }

  // ---------- decoding records ----------

  datatype Record = Record(group: Group, next: nat)

  /** `parseGroupRecord` */
  function ParseRecord(fs: seq<Bytes>, index: nat): (r: Option<Record>)
    ensures r.Some? ==> index < r.value.next <= |fs|
  {
    if index + 4 > |fs| then None
    else match ParseNumber(fs[index + 3])
      case None => None
      case Some(count) =>
        if index + 4 + count > |fs| then None
        else Some(Record(Group(fs[index], fs[index + 1], fs[index + 2], fs[index + 4..index + 4 + count]),
                         index + 4 + count))
  }

  datatype GroupEvent = GroupEvent(event: Bytes, group: Group)

  /** `decodeGroupEventPayload` */
  function DecodeEvent(d: Bytes): Option<GroupEvent> {
    match DecodeFields(d)
    case None => None
    case Some(fs) =>
      if |fs| < 5 then None
      else match ParseRecord(fs, 1)
        case None => None
        case Some(r) => if r.next != |fs| then None else Some(GroupEvent(fs[0], r.group))
  }

  function ParseRecords(fs: seq<Bytes>, index: nat, count: nat): Option<seq<Group>>
    decreases count
  {
    if count == 0 then if index == |fs| then Some([]) else None
    else match ParseRecord(fs, index)
      case None => None
      case Some(r) =>
        match ParseRecords(fs, r.next, count - 1)
        case None => None
        case Some(gs) => Some([r.group] + gs)
  }

  function ListOf(d: Bytes): Option<seq<Group>> {
    match DecodeFields(d)
    case None => None
    case Some(fs) =>
      if fs == [] then Some([])
      else match ParseNumber(fs[0])
        case None => None
        case Some(count) => ParseRecords(fs, 1, count)
  }

  /** `decodeGroupListPayload`; `None` stands for its exceptions. */
  method DecodeList(d: Bytes) returns (r: Option<seq<Group>>)
    ensures r == ListOf(d)
  {
    hide ParseRecord;
    var decoded := DecodeFields(d);
    if decoded.None? {
      return None;
    }
    var fields := decoded.value;
    if |fields| == 0 {
      return Some([]);
    }
    var groupCount := ParseNumber(fields[0]);
    if groupCount.None? {
      return None;
    }
    var groups: seq<Group> := [];
    var index := 1;
    var i := 0;
    PrependNothing(ParseRecords(fields, 1, groupCount.value));
    while i < groupCount.value
      invariant i <= groupCount.value
      invariant ParseRecords(fields, 1, groupCount.value)
                == Prepend(groups, ParseRecords(fields, index, groupCount.value - i))
    {
      var record := ParseRecord(fields, index);
      if record.None? {
        return None;
      }
      PrependOne(fields, groups, index, groupCount.value - i);
      groups := groups + [record.value.group];
      index := record.value.next;
      i := i + 1;
    }
    if index != |fields| {
      return None;
    }
    assert groups + [] == groups;
    return Some(groups);
  }

  function Prepend(gs: seq<Group>, rest: Option<seq<Group>>): Option<seq<Group>> {
    match rest
    case None => None
    case Some(more) => Some(gs + more)
  }

  lemma PrependNothing(r: Option<seq<Group>>)
    ensures Prepend([], r) == r
  {
    if r.Some? { assert [] + r.value == r.value; }
  }

  lemma PrependOne(fs: seq<Bytes>, gs: seq<Group>, index: nat, count: nat)
    requires 0 < count && ParseRecord(fs, index).Some?
    ensures var r := ParseRecord(fs, index).value;
            Prepend(gs, ParseRecords(fs, index, count)) == Prepend(gs + [r.group], ParseRecords(fs, r.next, count - 1))
  {
    hide ParseRecord;
    var r := ParseRecord(fs, index).value;
    match ParseRecords(fs, r.next, count - 1)
    case None =>
    case Some(more) => assert gs + ([r.group] + more) == gs + [r.group] + more;
  }

  datatype GroupText = GroupText(id: Bytes, name: Bytes, text: Bytes)

  /** `decodeGroupMessagePayload` */
  function DecodeMessage(d: Bytes): Option<GroupText> {
    match DecodeFields(d)
    case None => None
    case Some(fs) => if |fs| != 3 then None else Some(GroupText(fs[0], fs[1], fs[2]))
  }

  // ---------- exactly which payloads are read ----------

  /** The fields of a record whose member count is spelled in this way. */
  function Spelled(g: Group, count: Bytes): seq<Bytes> {
    [g.id, g.name, g.creator, count] + g.members
  }

  predicate Counts(count: Bytes, n: nat) {
    ParseNumber(count) == Some(n)
  }

  lemma RecordMeaning(fs: seq<Bytes>, index: nat, g: Group, next: nat)
    ensures ParseRecord(fs, index) == Some(Record(g, next))
            <==> index + 4 <= next <= |fs| && fs[index..next] == Spelled(g, fs[index + 3]) && Counts(fs[index + 3], |g.members|)
  {
    if index + 4 <= next <= |fs| {
      var part := fs[index..next];
      assert part[0] == fs[index] && part[1] == fs[index + 1] && part[2] == fs[index + 2] && part[3] == fs[index + 3];
      assert part[4..] == fs[index + 4..next];
      if part == Spelled(g, fs[index + 3]) && Counts(fs[index + 3], |g.members|) {
        assert |part| == 4 + |g.members| && part[4..] == g.members;
        assert g.id == part[0] && g.name == part[1] && g.creator == part[2];
      }
    }
  }

  /** An event is read exactly from its kind, one record with a right count, and nothing else. */
  lemma EventMeaning(d: Bytes, event: Bytes, g: Group)
    ensures DecodeEvent(d) == Some(GroupEvent(event, g))
            <==> Terminated(d) && exists count :: Fields(d) == [event] + Spelled(g, count) && Counts(count, |g.members|)
  {
    hide Fields, DecodeFields, ParseRecord, Counts;
    BothParsersAgree(d);
    if Terminated(d) {
      var fs := Fields(d);
      RecordMeaning(fs, 1, g, |fs|);
      if |fs| >= 5 {
        assert fs == [fs[0]] + fs[1..] && fs[1..|fs|] == fs[1..];
        if DecodeEvent(d) == Some(GroupEvent(event, g)) {
          assert ParseRecord(fs, 1) == Some(Record(g, |fs|));
          assert fs == [event] + Spelled(g, fs[4]);
        }
      }
      if count :| fs == [event] + Spelled(g, count) && Counts(count, |g.members|) {
        assert fs[0] == event && fs[1..] == Spelled(g, count) && fs[4] == Spelled(g, count)[3] == count;
      }
    }
  }

  /** A message is read exactly from three fields. */
  lemma MessageMeaning(d: Bytes, m: GroupText)
    ensures DecodeMessage(d) == Some(m) <==> Terminated(d) && Fields(d) == [m.id, m.name, m.text]
  {
    hide Fields, DecodeFields;
    BothParsersAgree(d);
  }

  function AllSpelled(gs: seq<Group>, counts: seq<Bytes>): seq<Bytes>
    requires |counts| == |gs|
  {
    if gs == [] then [] else Spelled(gs[0], counts[0]) + AllSpelled(gs[1..], counts[1..])
  }

  predicate AllCount(gs: seq<Group>, counts: seq<Bytes>) {
    |counts| == |gs| && forall i :: 0 <= i < |gs| ==> Counts(counts[i], |gs[i].members|)
  }

  lemma {:induction false} RecordsAreRead(fs: seq<Bytes>, index: nat, gs: seq<Group>) returns (counts: seq<Bytes>)
    requires index <= |fs| && ParseRecords(fs, index, |gs|) == Some(gs)
    ensures AllCount(gs, counts) && fs[index..] == AllSpelled(gs, counts)
    decreases |gs|
  {
    hide ParseRecord, Counts;
    if gs == [] {
      counts := [];
    } else {
      var r := ParseRecord(fs, index).value;
      RecordMeaning(fs, index, gs[0], r.next);
      var more := RecordsAreRead(fs, r.next, gs[1..]);
      counts := [fs[index + 3]] + more;
      assert counts[1..] == more;
      assert fs[index..] == fs[index..r.next] + fs[r.next..];
    }
  }

  lemma {:induction false} SpelledAreRead(fs: seq<Bytes>, index: nat, gs: seq<Group>, counts: seq<Bytes>)
    requires index <= |fs| && AllCount(gs, counts) && fs[index..] == AllSpelled(gs, counts)
    ensures ParseRecords(fs, index, |gs|) == Some(gs)
    decreases |gs|
  {
    hide ParseRecord, Counts;
    if gs != [] {
      var one, rest := Spelled(gs[0], counts[0]), AllSpelled(gs[1..], counts[1..]);
      var next := index + |one|;
      assert fs[index..] == one + rest;
      assert fs[index..next] == one && fs[next..] == rest by {
        assert fs[index..][..|one|] == fs[index..next] && fs[index..][|one|..] == fs[next..];
      }
      assert fs[index + 3] == one[3] == counts[0] by { assert fs[index..][3] == fs[index + 3]; }
      RecordMeaning(fs, index, gs[0], next);
      SpelledAreRead(fs, next, gs[1..], counts[1..]);
      assert [gs[0]] + gs[1..] == gs;
    }
  }

  lemma CountOfRecords(fs: seq<Bytes>, index: nat, n: nat)
    ensures ParseRecords(fs, index, n).Some? ==> |ParseRecords(fs, index, n).value| == n
    decreases n
  {
    hide ParseRecord;
  }

  /** A list is read exactly from nothing at all, or from a count and that many records with right counts. */
  lemma ListMeaning(d: Bytes, gs: seq<Group>)
    ensures ListOf(d) == Some(gs)
            <==> Terminated(d) && ((d == [] && gs == [])
                 || exists count, counts :: Counts(count, |gs|) && AllCount(gs, counts)
                                            && Fields(d) == [count] + AllSpelled(gs, counts))
  {
    hide DecodeFields, ParseRecords, AllSpelled, Counts;
    BothParsersAgree(d);
    if Terminated(d) && d != [] {
      var fs := Fields(d);
      CountsIs(fs[0], |gs|);
      assert fs == [fs[0]] + fs[1..];
      if ListOf(d) == Some(gs) {
        var n := ParseNumber(fs[0]).value;
        CountOfRecords(fs, 1, n);
        var counts := RecordsAreRead(fs, 1, gs);
        assert fs == [fs[0]] + AllSpelled(gs, counts);
      }
      if count, counts :| Counts(count, |gs|) && AllCount(gs, counts) && fs == [count] + AllSpelled(gs, counts) {
        assert fs[0] == count && fs[1..] == AllSpelled(gs, counts);
        SpelledAreRead(fs, 1, gs, counts);
      }
    }
  }

  lemma CountsIs(count: Bytes, n: nat)
    ensures Counts(count, n) <==> ParseNumber(count) == Some(n)
  {
  }

  // ---------- round trips ----------

  predicate NulFreeGroup(g: Group) {
    NUL !in g.id && NUL !in g.name && NUL !in g.creator && NulFree(g.members)
  }

  lemma RecordFieldsNulFree(g: Group)
    requires NulFreeGroup(g)
    ensures NulFree(RecordFields(g))
  {
    DigitsNulFree(|g.members|);
  }

  lemma {:induction false} RecordsNulFree(gs: seq<Group>)
    requires forall i :: 0 <= i < |gs| ==> NulFreeGroup(gs[i])
    ensures NulFree(Records(gs))
  {
    if gs != [] {
      RecordFieldsNulFree(gs[0]);
      RecordsNulFree(gs[1..]);
    }
  }

  /** A printed record is read back from where it stands in a longer list of fields. */
  lemma RecordRoundTrip(before: seq<Bytes>, g: Group, after: seq<Bytes>)
    ensures ParseRecord(before + RecordFields(g) + after, |before|)
            == Some(Record(g, |before| + |RecordFields(g)|))
  {
    var fs := before + RecordFields(g) + after;
    var k := |before|;
    PrintedCountParses(|g.members|);
    assert fs[k] == g.id && fs[k + 1] == g.name && fs[k + 2] == g.creator && fs[k + 3] == Digits(|g.members|);
    assert fs[k + 4..k + 4 + |g.members|] == g.members;
  }

  lemma {:induction false} RecordsRoundTrip(before: seq<Bytes>, gs: seq<Group>)
    ensures ParseRecords(before + Records(gs), |before|, |gs|) == Some(gs)
    decreases |gs|
  {
    hide ParseRecord, RecordFields;
    if gs == [] {
      assert before + Records(gs) == before;
    } else {
      var r := RecordFields(gs[0]);
      assert before + Records(gs) == before + r + Records(gs[1..]);
      RecordRoundTrip(before, gs[0], Records(gs[1..]));
      RecordsRoundTrip(before + r, gs[1..]);
      assert [gs[0]] + gs[1..] == gs;
    }
  }

  lemma EventRoundTrip(event: Bytes, g: Group)
    requires NUL !in event && NulFreeGroup(g) && Build(EventFields(event, g)).Some?
    ensures DecodeEvent(Build(EventFields(event, g)).value) == Some(GroupEvent(event, g))
  {
    var fs := EventFields(event, g);
    RecordFieldsNulFree(g);
    BuiltPayloadParses(fs);
    RecordRoundTrip([event], g, []);
    assert [event] + RecordFields(g) + [] == fs;
  }

  /** Whenever the list was sent, the gateway reads back exactly the groups listed, in order. */
  lemma ListRoundTrip(gs: seq<Group>)
    requires forall i :: 0 <= i < |gs| ==> NulFreeGroup(gs[i])
    requires Build(ListFields(gs)).Some?
    ensures ListOf(Build(ListFields(gs)).value) == Some(gs)
  {
    RecordsNulFree(gs);
    DigitsNulFree(|gs|);
    BuiltPayloadParses(ListFields(gs));
    PrintedCountParses(|gs|);
    RecordsRoundTrip([Digits(|gs|)], gs);
  }

  lemma MessageRoundTrip(g: Group, text: Bytes)
    requires NulFreeGroup(g) && NUL !in text && Build(MessageFields(g, text)).Some?
    ensures DecodeMessage(Build(MessageFields(g, text)).value) == Some(GroupText(g.id, g.name, text))
  {
    BuiltPayloadParses(MessageFields(g, text));
  }

  lemma ValidGroupNulFree(g: Group)
    requires ValidGroup(g)
    ensures NulFreeGroup(g)
  {
  }

  // ---------- size of an event ----------

  function TotalLength(fs: seq<Bytes>): nat {
    if fs == [] then 0 else |fs[0]| + 1 + TotalLength(fs[1..])
  }

  lemma {:induction false} JoinLength(fs: seq<Bytes>)
    ensures |Join(fs)| == TotalLength(fs)
  {
    if fs != [] { JoinLength(fs[1..]); }
  }

  lemma OneMoreTimes(a: nat, n: nat)
    ensures a * (n + 1) == a * n + a
  {
  }

  lemma {:induction false} TotalLengthBounds(fs: seq<Bytes>, low: nat, high: nat)
    requires forall i :: 0 <= i < |fs| ==> low <= |fs[i]| <= high
    ensures (low + 1) * |fs| <= TotalLength(fs) <= (high + 1) * |fs|
  {
    if fs != [] {
      TotalLengthBounds(fs[1..], low, high);
      OneMoreTimes(low + 1, |fs| - 1);
      OneMoreTimes(high + 1, |fs| - 1);
    }
  }

  /** An event fits exactly when its field lengths and terminators sum to at most 1024. */
  lemma EventSize(event: Bytes, g: Group)
    ensures Build(EventFields(event, g)).Some? <==>
            |event| + |g.id| + |g.name| + |g.creator| + |Digits(|g.members|)| + 5 + TotalLength(g.members)
            <= PACKET_DATA_MAX
  {
    var fs := EventFields(event, g);
    BuildMeaning(fs);
    JoinLength(fs);
    var f4 := [Digits(|g.members|)] + g.members;
    var f3 := [g.creator] + f4;
    var f2 := [g.name] + f3;
    var f1 := [g.id] + f2;
    assert fs == [event] + f1;
    assert TotalLength(fs) == |event| + 1 + TotalLength(f1) && TotalLength(f1) == |g.id| + 1 + TotalLength(f2)
        && TotalLength(f2) == |g.name| + 1 + TotalLength(f3) && TotalLength(f3) == |g.creator| + 1 + TotalLength(f4) by {
      assert f3[1..] == f4 && f2[1..] == f3 && f1[1..] == f2 && fs[1..] == f1;
    }
    assert f4[1..] == g.members;
  }

  /** Every valid group of up to 28 members can be announced, for both kinds of event. */
  lemma SmallGroupsFit(event: Bytes, g: Group)
    requires event == EVENT_CREATED || event == EVENT_MEMBER_LEFT
    requires ValidGroup(g) && |g.members| <= 28
    ensures Build(EventFields(event, g)).Some?
  {
    EventSize(event, g);
    TotalLengthBounds(g.members, 1, USERNAME_MAX_LEN - 1);
    DigitsLength(|g.members|, 2);
    assert Pow10(2) == 100;
  }

  /** With names of maximal length 29 members never fit. */
  lemma TwentyNineLongNamesDoNotFit(event: Bytes, g: Group)
    requires event == EVENT_CREATED || event == EVENT_MEMBER_LEFT
    requires |g.members| == 29 && 7 <= |g.id| && |g.name| == GROUP_NAME_MAX_LEN - 1 && |g.creator| == USERNAME_MAX_LEN - 1
    requires forall i :: 0 <= i < 29 ==> |g.members[i]| == USERNAME_MAX_LEN - 1
    ensures Build(EventFields(event, g)).None?
  {
    EventSize(event, g);
    TotalLengthBounds(g.members, USERNAME_MAX_LEN - 1, USERNAME_MAX_LEN - 1);
  }
}
