/** Bytes, C strings and the sizes that every part of the chat system shares. */
module Basics {
  newtype byte = x: int | 0 <= x < 256
  type Bytes = seq<byte>

  datatype Option<+T> = None | Some(value: T)

  const NUL: byte := 0
  const NEWLINE: byte := 10
  const COLON: byte := 58

  const USERNAME_MAX_LEN := 32
  const PASSWORD_MAX_LEN := 64
  const FILE_NAME_MAX_LEN := 256
  const PACKET_DATA_MAX := 1024
  const FILE_TRANSFER_MAX_BYTES := 10 * 1024 * 1024
  const GROUP_ID_MAX_LEN := 32
  const GROUP_NAME_MAX_LEN := 64
  const GROUP_MAX_MEMBERS := 64
  const GROUP_MAX_GROUPS := 128
  const GROUP_EVENT_MAX_CHANGES := 64
  const GROUP_PAYLOAD_MAX_FIELDS := 128

  function Min(a: nat, b: nat): nat {
    if a <= b then a else b
  }

  function Zeros(n: nat): (z: Bytes)
    ensures |z| == n
  {
    seq(n, _ => NUL)
  }

  /** The C string held in a buffer: everything before its first NUL. */
  function CString(a: Bytes): (s: Bytes)
    ensures NUL !in s && s <= a
    ensures |s| < |a| ==> a[|s|] == NUL
  {
    if a == [] || a[0] == NUL then [] else [a[0]] + CString(a[1..])
  }

  /** A NUL-terminated copy reads back whole, whatever follows the terminator. */
  lemma {:induction false} CStringOf(s: Bytes, rest: Bytes)
    requires NUL !in s
    ensures CString(s + [NUL] + rest) == s
    ensures CString(s) == s
  {
    if s != [] {
      CStringOf(s[1..], rest);
      assert (s + [NUL] + rest)[1..] == s[1..] + [NUL] + rest;
    }
  }

  /** Content of a fixed array of the given size after `strncpy` of `s` into a zeroed buffer. */
  function Fixed(s: Bytes, size: nat): (a: Bytes)
    requires 0 < size
    ensures |a| == size
  {
    var n := Min(|s|, size - 1);
    s[..n] + Zeros(size - n)
  }

  lemma {:induction false} CStringStays(s: Bytes, more: Bytes)
    ensures CString(s + [NUL] + more) == CString(s)
  {
    if s != [] && s[0] != NUL {
      CStringStays(s[1..], more);
      assert (s + [NUL] + more)[1..] == s[1..] + [NUL] + more;
    }
  }

  /** A short enough text in a fixed buffer reads back up to its first NUL. */
  lemma FixedText(s: Bytes, size: nat)
    requires |s| < size
    ensures CString(Fixed(s, size)) == CString(s)
  {
    hide CString, Zeros;
    var k := size - |s| - 1;
    ZerosCons(k);
    Regroup(s, [NUL], Zeros(k));
    assert s[..|s|] == s;
    CStringStays(s, Zeros(k));
  }

  lemma ZerosCons(k: nat)
    ensures Zeros(k + 1) == [NUL] + Zeros(k)
  {
  }

  lemma FixedReadsBack(s: Bytes, size: nat)
    requires NUL !in s && |s| < size
    ensures CString(Fixed(s, size)) == s
  {
    FixedText(s, size);
    CStringOf(s, []);
  }

  lemma FixedEndsInNul(s: Bytes, size: nat)
    requires 0 < size
    ensures Fixed(s, size)[size - 1 := NUL] == Fixed(s, size)
  {
  }

  lemma Regroup<T>(a: seq<T>, b: seq<T>, c: seq<T>)
    ensures a + (b + c) == a + b + c
  {
  }

  function Flatten(xs: seq<Bytes>): Bytes {
    if xs == [] then [] else xs[0] + Flatten(xs[1..])
  }

  lemma FlattenCons(x: Bytes, xs: seq<Bytes>)
    ensures Flatten([x] + xs) == x + Flatten(xs)
  {
    assert ([x] + xs)[1..] == xs;
  }

  lemma {:induction false} FlattenAppend(xs: seq<Bytes>, ys: seq<Bytes>)
    ensures Flatten(xs + ys) == Flatten(xs) + Flatten(ys)
  {
    if xs == [] {
      assert xs + ys == ys;
    } else {
      FlattenAppend(xs[1..], ys);
      assert xs + ys == [xs[0]] + (xs[1..] + ys);
      FlattenCons(xs[0], xs[1..] + ys);
      assert xs[0] + (Flatten(xs[1..]) + Flatten(ys)) == xs[0] + Flatten(xs[1..]) + Flatten(ys);
    }
  }

  predicate Distinct<T(==)>(xs: seq<T>) {
    forall i, j :: 0 <= i < j < |xs| ==> xs[i] != xs[j]
  }
}
