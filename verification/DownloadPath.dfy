/** Choosing a free file name for a download (common/file_utils.c). */
module DownloadPath {
  import opened Basics
  import opened Decimal

  const SLASH: byte := 47
  const BACKSLASH: byte := 92
  const RETURN: byte := 13
  const UNDERSCORE: byte := 95
  const DOT: byte := 46

  const MAX_TRIES := 1000
  const SENDER_SIZE := 128

  function SafeByte(c: byte): byte {
    if c == SLASH || c == BACKSLASH || c == COLON || c == NEWLINE || c == RETURN then UNDERSCORE else c
  }

  /** What `sanitize_component` leaves in a buffer of the given size. */
  function Sanitized(s: Bytes, size: nat): (r: Bytes)
    requires 0 < size
    ensures |r| < size && SLASH !in r
  {
    seq(Min(|s|, size - 1), i requires 0 <= i < Min(|s|, size - 1) => SafeByte(s[i]))
  }

  /** Slashes of both kinds, colons and line ends become underscores; everything else stays, up to the size of the buffer. */
  lemma SanitizedMeaning(s: Bytes, size: nat)
    requires 0 < size
    ensures |Sanitized(s, size)| == Min(|s|, size - 1)
    ensures forall i :: 0 <= i < |Sanitized(s, size)| ==>
              Sanitized(s, size)[i] == if s[i] in [47, 92, 58, 10, 13] then 95 else s[i]
  {
  }

  method SanitizeComponent(text: Bytes, out: array<byte>) returns (length: nat)
    requires 0 < out.Length
    modifies out
    ensures length < out.Length && out[length] == NUL && out[..length] == Sanitized(text, out.Length)
  {
    var j := 0;
    while j < |text| && j + 1 < out.Length
      invariant j <= |text| && j < out.Length
      invariant forall k :: 0 <= k < j ==> out[k] == SafeByte(text[k])
    {
      out[j] := SafeByte(text[j]);
      j := j + 1;
    }
    out[j] := NUL;
    return j;
  }

  /** Position of the last `c`, as `strrchr` finds it. */
  function LastIndex(s: Bytes, c: byte): (r: Option<nat>)
    ensures r.None? ==> c !in s
    ensures r.Some? ==> r.value < |s| && s[r.value] == c && c !in s[r.value + 1..]
  {
    if s == [] then None
    else if s[|s| - 1] == c then Some(|s| - 1)
    else
      var r := LastIndex(s[..|s| - 1], c);
      assert r.Some? ==> s[r.value + 1..] == s[..|s| - 1][r.value + 1..] + [s[|s| - 1]];
      r
  }

  /** `base_filename` */
  function BaseFilename(path: Bytes): (r: Bytes)
    ensures SLASH !in r
  {
    match LastIndex(path, SLASH)
    case None => path
    case Some(i) => path[i + 1..]
  }

  /** The base name is the longest end of the path without a slash. */
  lemma BaseFilenameMeaning(path: Bytes)
    ensures var r := BaseFilename(path);
            && |r| <= |path| && r == path[|path| - |r|..]
            && (|r| < |path| ==> path[|path| - |r| - 1] == SLASH)
  {
  }

  datatype Parts = Parts(dir: Bytes, sender: Bytes, stem: Bytes, ext: Bytes)

  /** The pieces of all candidates; `None` when sender or file name is empty. */
  function Split(dir: Bytes, sender: Bytes, filename: Bytes): (r: Option<Parts>)
    ensures r.Some? ==> SLASH !in r.value.sender && SLASH !in r.value.stem && SLASH !in r.value.ext
                        && r.value.dir == dir && r.value.stem + r.value.ext == Sanitized(BaseFilename(filename), FILE_NAME_MAX_LEN)
  {
    var safeSender := Sanitized(sender, SENDER_SIZE);
    var safeFile := Sanitized(BaseFilename(filename), FILE_NAME_MAX_LEN);
    if safeSender == [] || safeFile == [] then None
    else match LastIndex(safeFile, DOT)
      case None => Some(Parts(dir, safeSender, safeFile, []))
      case Some(d) => if d == 0 then Some(Parts(dir, safeSender, safeFile, []))
                      else Some(Parts(dir, safeSender, safeFile[..d], safeFile[d..]))
  }

  /** The extension starts at the last dot, unless that is the first character. */
  lemma SplitMeaning(dir: Bytes, sender: Bytes, filename: Bytes)
    ensures var r := Split(dir, sender, filename);
            && (r.None? <==> sender == [] || BaseFilename(filename) == [])
            && (r.Some? ==>
                  && r.value.sender == Sanitized(sender, SENDER_SIZE) && r.value.stem != []
                  && (r.value.ext == [] ==> DOT !in r.value.stem[1..])
                  && (r.value.ext != [] ==> r.value.ext[0] == DOT && DOT !in r.value.ext[1..]))
  {
    hide BaseFilename;
    var file := Sanitized(BaseFilename(filename), FILE_NAME_MAX_LEN);
    match LastIndex(file, DOT)
    case None =>
    case Some(d) => assert file[d..][1..] == file[d + 1..];
  }

  function Suffix(i: nat): Bytes {
    if i == 0 then [] else [UNDERSCORE] + Digits(i)
  }

  function FileName(p: Parts, i: nat): Bytes {
    p.sender + [UNDERSCORE] + p.stem + Suffix(i) + p.ext
  }

  function Candidate(p: Parts, i: nat): Bytes {
    p.dir + [SLASH] + FileName(p, i)
  }

  /** The first candidate is the sanitized name behind the sender's; the others have their number before the extension. */
  lemma CandidateMeaning(dir: Bytes, sender: Bytes, filename: Bytes, i: nat)
    requires Split(dir, sender, filename).Some? && 0 < i
    ensures var p := Split(dir, sender, filename).value;
            var safeSender, safeFile := Sanitized(sender, 128), Sanitized(BaseFilename(filename), 256);
            && Candidate(p, 0) == dir + [47] + (safeSender + [95] + safeFile)
            && Candidate(p, i) == dir + [47] + (safeSender + [95] + p.stem + ([95] + Digits(i)) + p.ext)
            && p.stem + p.ext == safeFile
  {
    hide Sanitized, BaseFilename, Digits;
    var p := Split(dir, sender, filename).value;
    Regroup(p.sender + [95], p.stem, p.ext);
    assert p.sender + [95] + p.stem + [] == p.sender + [95] + p.stem;
  }

  lemma CandidatesDiffer(p: Parts, i: nat, j: nat)
    ensures Candidate(p, i) == Candidate(p, j) ==> i == j
  {
    if Candidate(p, i) == Candidate(p, j) {
      var head := p.dir + [SLASH] + (p.sender + [UNDERSCORE] + p.stem);
      CandidateShape(p, i);
      CandidateShape(p, j);
      assert (head + (Suffix(i) + p.ext))[|head|..] == Suffix(i) + p.ext;
      assert (head + (Suffix(j) + p.ext))[|head|..] == Suffix(j) + p.ext;
      assert |Suffix(i)| == |Suffix(j)|;
      assert Suffix(i) == (Suffix(i) + p.ext)[..|Suffix(i)|];
      if i > 0 && j > 0 {
        assert Suffix(i)[1..] == Digits(i) && Suffix(j)[1..] == Digits(j);
        DigitsInjective(i, j);
      }
    }
  }

  lemma CandidateShape(p: Parts, i: nat)
    ensures Candidate(p, i) == p.dir + [SLASH] + (p.sender + [UNDERSCORE] + p.stem) + (Suffix(i) + p.ext)
  {
    hide Suffix;
    var a := p.sender + [UNDERSCORE] + p.stem;
    assert FileName(p, i) == a + (Suffix(i) + p.ext);
    Regroup(p.dir + [SLASH], a, Suffix(i) + p.ext);
  }

  predicate Fits(p: Parts, i: nat, outSize: nat) {
    |Candidate(p, i)| + 1 <= outSize
  }

  /** Candidate `i` is the answer: the first that does not exist, and everything up to it fits. */
  predicate IsFirstFree(p: Parts, taken: set<Bytes>, outSize: nat, i: nat) {
    && i < MAX_TRIES && Candidate(p, i) !in taken && (forall j :: 0 <= j < i ==> Candidate(p, j) in taken)
    && forall j :: 0 <= j <= i ==> Fits(p, j, outSize)
  }

  /** The right answer to a search: the lowest-numbered free candidate, or none when there is none. */
  ghost predicate Chosen(dir: Bytes, dirOk: bool, sender: Bytes, filename: Bytes, taken: set<Bytes>, outSize: nat,
                         r: Option<Bytes>) {
    var parts := Split(dir, sender, filename);
    match r
    case Some(path) =>
      dirOk && parts.Some? && exists i :: IsFirstFree(parts.value, taken, outSize, i) && path == Candidate(parts.value, i)
    case None => dirOk && parts.Some? ==> forall i :: !IsFirstFree(parts.value, taken, outSize, i)
  }

  /**
   `build_unique_download_path`. `dirOk` says whether the directory exists or could be made, `taken` is
   the set of existing paths. The result is the lowest-numbered free candidate, and one is returned
   exactly when there is one before the tries or the buffer run out.
   */
  method BuildUniqueDownloadPath(dir: Bytes, dirOk: bool, sender: Bytes, filename: Bytes, taken: set<Bytes>, outSize: nat)
    returns (r: Option<Bytes>)
    ensures Chosen(dir, dirOk, sender, filename, taken, outSize, r)
  {
    hide Candidate, Split, BaseFilename, Sanitized;
    var parts := Split(dir, sender, filename);
    assert outSize == 0 && parts.Some? ==> !Fits(parts.value, 0, outSize);
    if outSize == 0 || !dirOk {
      return None;
    }
    if parts.None? {
      return None;
    }
    var i := 0;
    while i < MAX_TRIES
      invariant i <= MAX_TRIES
      invariant forall j :: 0 <= j < i ==> Candidate(parts.value, j) in taken && Fits(parts.value, j, outSize)
    {
      var candidate := Candidate(parts.value, i);
      if |candidate| + 1 > outSize {
        assert !Fits(parts.value, i, outSize);
        return None;
      }
      if candidate !in taken {
        assert IsFirstFree(parts.value, taken, outSize, i);
        return Some(candidate);
      }
      i := i + 1;
    }
    return None;
  }

  /** `n` candidates that all exist are `n` different paths. */
  lemma {:induction false} TakenCount(p: Parts, taken: set<Bytes>, n: nat)
    requires forall j :: 0 <= j < n ==> Candidate(p, j) in taken
    ensures n <= |taken|
  {
    if n > 0 {
      var last := Candidate(p, n - 1);
      forall j | 0 <= j < n - 1 ensures Candidate(p, j) in taken - {last} {
        CandidatesDiffer(p, j, n - 1);
      }
      TakenCount(p, taken - {last}, n - 1);
    }
  }

  /** The existing ones of the first `n` candidates. */
  function Existing(p: Parts, taken: set<Bytes>, n: nat): set<Bytes> {
    set i | 0 <= i < n && Candidate(p, i) in taken :: Candidate(p, i)
  }

  lemma {:induction false} FirstFreeFrom(p: Parts, taken: set<Bytes>, outSize: nat, i: nat) returns (k: nat)
    requires i <= MAX_TRIES && |Existing(p, taken, MAX_TRIES)| < MAX_TRIES
    requires forall j :: 0 <= j < MAX_TRIES ==> Fits(p, j, outSize)
    requires forall j :: 0 <= j < i ==> Candidate(p, j) in taken
    ensures IsFirstFree(p, taken, outSize, k)
    decreases MAX_TRIES - i
  {
    hide Candidate;
    if i == MAX_TRIES {
      TakenCount(p, Existing(p, taken, MAX_TRIES), MAX_TRIES);
      assert false;
    } else if Candidate(p, i) in taken {
      k := FirstFreeFrom(p, taken, outSize, i + 1);
    } else {
      k := i;
    }
  }

  /** A free candidate leaves room among the existing ones. */
  lemma {:induction false} ExistingCount(p: Parts, taken: set<Bytes>, n: nat)
    ensures |Existing(p, taken, n)| <= n
    ensures (exists k :: 0 <= k < n && Candidate(p, k) !in taken) ==> |Existing(p, taken, n)| < n
  {
    hide Candidate;
    if n > 0 {
      var fewer, last := Existing(p, taken, n - 1), Candidate(p, n - 1);
      ExistingCount(p, taken, n - 1);
      assert Existing(p, taken, n) == if last in taken then fewer + {last} else fewer;
    }
  }

  /**
   When the buffer holds the longest candidate, a free path is found exactly when fewer than 1000 of the
   candidates exist.
   */
  lemma FreePathExactly(p: Parts, taken: set<Bytes>, outSize: nat)
    requires |p.dir| + |p.sender| + |p.stem| + |p.ext| + 7 <= outSize
    ensures (exists k :: IsFirstFree(p, taken, outSize, k)) <==> |Existing(p, taken, 1000)| < 1000
  {
    hide Candidate, Existing;
    forall j | 0 <= j < MAX_TRIES ensures Fits(p, j, outSize) { ShortCandidate(p, j, outSize); }
    ExistingCount(p, taken, MAX_TRIES);
    if |Existing(p, taken, MAX_TRIES)| < MAX_TRIES {
      var k := FirstFreeFrom(p, taken, outSize, 0);
    }
  }

  lemma ShortCandidate(p: Parts, j: nat, outSize: nat)
    requires |p.dir| + |p.sender| + |p.stem| + |p.ext| + 7 <= outSize && j < MAX_TRIES
    ensures Fits(p, j, outSize)
  {
    assert Pow10(3) == 1000;
    DigitsLength(j, 3);
  }

  /** In particular when fewer than 1000 paths exist at all. */
  lemma FreePathAlwaysFound(p: Parts, taken: set<Bytes>, outSize: nat)
    requires |taken| < MAX_TRIES && |p.dir| + |p.sender| + |p.stem| + |p.ext| + 7 <= outSize
    ensures exists k :: IsFirstFree(p, taken, outSize, k)
  {
    hide Candidate;
    var existing, rest := Existing(p, taken, MAX_TRIES), taken - Existing(p, taken, MAX_TRIES);
    assert taken == existing + rest;
    FreePathExactly(p, taken, outSize);
  }

  /** The chosen path does not exist yet and is one new name inside the directory. */
  lemma ChosenStaysInside(dir: Bytes, dirOk: bool, sender: Bytes, filename: Bytes, taken: set<Bytes>, outSize: nat, path: Bytes)
    requires Chosen(dir, dirOk, sender, filename, taken, outSize, Some(path))
    ensures path !in taken && |path| < outSize
    ensures dir + [SLASH] <= path && SLASH !in path[|dir| + 1..]
  {
    hide Digits;
    var p := Split(dir, sender, filename).value;
    var i :| IsFirstFree(p, taken, outSize, i) && path == Candidate(p, i);
    assert Fits(p, i, outSize);
    DigitsAreNoSlash(i);
    assert path[|dir| + 1..] == FileName(p, i);
  }

  lemma DigitsAreNoSlash(i: nat)
    ensures SLASH !in Suffix(i)
  {
    if i > 0 { assert IsDigits(Digits(i)); }
  }
}
