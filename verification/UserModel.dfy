/** Users as values: the list of common/user.c, head first, with the online flag and socket of each. */
module UserModel {
  import opened Basics
  import opened Credentials
  import opened GroupModel

  /** `fd` is -1 while the user is offline. */
  datatype User = User(name: Bytes, salt: Bytes, hash: Bytes, online: bool, fd: int)

  datatype UserResult = Ok | Exists | Unknown | BadPassword | AlreadyOnline | Offline | BadInput | IoFailure

  const USER_HASH_BUCKETS := 101

  predicate ValidPassword(s: Bytes) {
    s != [] && |s| < PASSWORD_MAX_LEN && NEWLINE !in s
  }

  /** Passwords have 1 to 63 bytes and no newline. */
  lemma PasswordRule(s: Bytes)
    ensures ValidPassword(s) <==> 1 <= |s| <= 63 && 10 !in s
  {
  }

  // ---------- looking users up ----------

  /** Position of the first user with that name, or the length of the list. */
  function FindUser(us: seq<User>, name: Bytes): (i: nat)
    ensures i <= |us| && (i < |us| ==> us[i].name == name)
    ensures forall j :: 0 <= j < i ==> us[j].name != name
  {
    if us == [] || us[0].name == name then 0 else FindUser(us[1..], name) + 1
  }

  predicate At(u: User, fd: int) {
    u.online && u.fd == fd
  }

  /** The scan shared by `user_store_logout_fd` and `user_store_username_by_fd`. */
  function FindFd(us: seq<User>, fd: int): (i: nat)
    ensures i <= |us| && (i < |us| ==> At(us[i], fd))
    ensures forall j :: 0 <= j < i ==> !At(us[j], fd)
  {
    if us == [] || At(us[0], fd) then 0 else FindFd(us[1..], fd) + 1
  }

  lemma FindFdIs(us: seq<User>, fd: int, i: nat)
    requires i <= |us| && (i < |us| ==> At(us[i], fd))
    requires forall j :: 0 <= j < i ==> !At(us[j], fd)
    ensures FindFd(us, fd) == i
  {
  }

  predicate UniqueNames(us: seq<User>) {
    forall i, j :: 0 <= i < j < |us| ==> us[i].name != us[j].name
  }

  predicate ValidUser(u: User) {
    ValidName(u.name) && |u.salt| == SALT_HEX_LEN && |u.hash| == PASSWORD_HASH_HEX_LEN
  }

  predicate UsersOk(us: seq<User>) {
    UniqueNames(us) && forall i :: 0 <= i < |us| ==> ValidUser(us[i])
  }

  lemma FindUserAt(us: seq<User>, i: nat)
    requires i < |us| && UniqueNames(us)
    ensures FindUser(us, us[i].name) == i
  {
    var k := FindUser(us, us[i].name);
    assert k <= i;
  }

  lemma FindUserIs(us: seq<User>, name: Bytes, i: nat)
    requires i <= |us| && (i < |us| ==> us[i].name == name)
    requires forall j :: 0 <= j < i ==> us[j].name != name
    ensures FindUser(us, name) == i
  {
  }

  predicate IsOnline(us: seq<User>, name: Bytes) {
    var i := FindUser(us, name);
    i < |us| && us[i].online
  }

  datatype FdResult = Fd(fd: int) | NoFd(error: UserResult)

  /** `user_store_get_fd` */
  function GetFd(us: seq<User>, name: Bytes): FdResult {
    if !ValidName(name) then NoFd(BadInput)
    else
      var i := FindUser(us, name);
      if i == |us| then NoFd(Unknown) else if !us[i].online then NoFd(Offline) else Fd(us[i].fd)
  }

  /** `user_store_username_by_fd` */
  function NameByFd(us: seq<User>, fd: int): Option<Bytes> {
    var i := FindFd(us, fd);
    if i < |us| then Some(us[i].name) else None
  }

  function SetOffline(us: seq<User>, i: nat): seq<User>
    requires i < |us|
  {
    us[i := us[i].(online := false, fd := -1)]
  }

  /** `user_store_logout_fd`: only the first user on the socket goes offline. */
  function LogoutFd(us: seq<User>, fd: int): seq<User> {
    var i := FindFd(us, fd);
    if i < |us| then SetOffline(us, i) else us
  }

  function OnlineCount(us: seq<User>): nat {
    if us == [] then 0 else (if us[0].online then 1 else 0) + OnlineCount(us[1..])
  }

  lemma {:induction false} OfflineLowersCount(us: seq<User>, i: nat)
    requires i < |us| && us[i].online
    ensures OnlineCount(SetOffline(us, i)) == OnlineCount(us) - 1
  {
    if i > 0 {
      OfflineLowersCount(us[1..], i - 1);
      assert SetOffline(us, i)[1..] == SetOffline(us[1..], i - 1);
    }
  }

  /** `user_store_snapshot_online_fds` */
  function OnlineFds(us: seq<User>, except: int, max: nat): (fds: seq<int>)
    ensures |fds| <= max
    decreases |us|
  {
    if us == [] || max == 0 then []
    else if us[0].online && us[0].fd >= 0 && us[0].fd != except
    then [us[0].fd] + OnlineFds(us[1..], except, max - 1)
    else OnlineFds(us[1..], except, max)
  }

  /** `user_store_online_list` after `count` names are written: `None` when the text does not fit. */
  function OnlineText(us: seq<User>, text: Bytes, count: nat): Option<Bytes>
    decreases |us|
  {
    if us == [] then Some(text)
    else if !us[0].online then OnlineText(us[1..], text, count)
    else
      var piece := (if count == 0 then [] else [NEWLINE]) + us[0].name;
      if |text| + |piece| >= PACKET_DATA_MAX then None else OnlineText(us[1..], text + piece, count + 1)
  }

  // ---------- registering and logging in ----------

  datatype Registration = Registration(users: seq<User>, storage: Bytes, result: UserResult)

  /** One line of users.db. */
  function RecordLine(u: User): Bytes {
    u.name + [COLON] + u.salt + [COLON] + u.hash + [NEWLINE]
  }

  /**
   `user_store_register`. `salt` is what RAND_bytes gave, `appended` whether the line reached the file.
   A failed append is reported but the user stays in memory.
   */
  function Register(digest: Hasher, us: seq<User>, storage: Bytes, name: Bytes, password: Bytes,
                    salt: Option<Salt>, appended: bool): Registration
  {
    if !ValidName(name) || !ValidPassword(password) then Registration(us, storage, BadInput)
    else if salt.None? then Registration(us, storage, IoFailure)
    else match HashPassword(digest, password, ToHex(salt.value))
      case None => Registration(us, storage, IoFailure)
      case Some(hash) =>
        if FindUser(us, name) < |us| then Registration(us, storage, Exists)
        else
          var u := User(name, ToHex(salt.value), hash, false, -1);
          if appended then Registration([u] + us, storage + RecordLine(u), Ok)
          else Registration([u] + us, storage, IoFailure)
  }

  datatype Login = Login(users: seq<User>, result: UserResult)

  /** `user_store_login` */
  function LoginUser(digest: Hasher, us: seq<User>, name: Bytes, password: Bytes, fd: int): Login {
    if !ValidName(name) || !ValidPassword(password) then Login(us, BadInput)
    else
      var i := FindUser(us, name);
      if i == |us| then Login(us, Unknown)
      else if !VerifyPassword(digest, password, us[i].salt, us[i].hash) then Login(us, BadPassword)
      else if us[i].online then Login(us, AlreadyOnline)
      else Login(us[i := us[i].(online := true, fd := fd)], Ok)
  }

  /** The stored hash is the hex form of the digest of the stored salt and this password. */
  predicate Knows(digest: Hasher, u: User, password: Bytes) {
    |u.salt| == SALT_HEX_LEN && IsHex(u.salt) && u.hash == ToHex(digest(FromHex(u.salt), password))
  }

  predicate Known(us: seq<User>, name: Bytes) {
    exists k :: 0 <= k < |us| && us[k].name == name
  }

  /**
   A login succeeds exactly when the name is that of an offline user who knows the password; then only that
   user's flag and socket change, and otherwise nothing does. Each refusal has one reason.
   */
  lemma LoginMeaning(digest: Hasher, us: seq<User>, name: Bytes, password: Bytes, fd: int)
    requires UniqueNames(us)
    ensures var r, ok := LoginUser(digest, us, name, password, fd), ValidName(name) && ValidPassword(password);
            && (r.result == Ok <==>
                  ok && exists k :: 0 <= k < |us| && us[k].name == name && !us[k].online && Knows(digest, us[k], password))
            && (r.result == BadInput <==> !ok)
            && (r.result == Unknown <==> ok && !Known(us, name))
            && (r.result == BadPassword <==>
                  ok && exists k :: 0 <= k < |us| && us[k].name == name && !Knows(digest, us[k], password))
            && (r.result == AlreadyOnline <==>
                  ok && exists k :: 0 <= k < |us| && us[k].name == name && us[k].online && Knows(digest, us[k], password))
    ensures var r := LoginUser(digest, us, name, password, fd);
            && (r.result != Ok ==> r.users == us)
            && (r.result == Ok ==> forall k :: 0 <= k < |us| && us[k].name == name ==>
                                     r.users == us[k := us[k].(online := true, fd := fd)])
  {
    hide Knows, VerifyPassword, ValidName, ValidPassword;
    var i := FindUser(us, name);
    forall k | 0 <= k < |us| && us[k].name == name ensures k == i && i < |us| { FindUserAt(us, k); }
    if i < |us| { KnowsVerifies(digest, us[i], password); }
  }

  lemma KnowsVerifies(digest: Hasher, u: User, password: Bytes)
    ensures Knows(digest, u, password) <==> VerifyPassword(digest, password, u.salt, u.hash)
  {
  }

  /**
   A registration adds a user exactly when name and password are valid, there is a salt and the name is new:
   in front, offline, with the salt and the salted digest in hex, and with one line in the file if that could be
   written. It succeeds when the line is written too, and each refusal has one reason.
   */
  lemma RegisterMeaning(digest: Hasher, us: seq<User>, storage: Bytes, name: Bytes, password: Bytes,
                        salt: Option<Salt>, appended: bool)
    ensures var r, ok := Register(digest, us, storage, name, password, salt, appended), ValidName(name) && ValidPassword(password);
            && (r.result == Ok <==> ok && salt.Some? && !Known(us, name) && appended)
            && (r.result == BadInput <==> !ok)
            && (r.result == Exists <==> ok && salt.Some? && Known(us, name))
            && (r.result == IoFailure <==> ok && (salt.None? || (!Known(us, name) && !appended)))
    ensures var r := Register(digest, us, storage, name, password, salt, appended);
            if ValidName(name) && ValidPassword(password) && salt.Some? && !Known(us, name) then
              var hash := ToHex(digest(salt.value, password));
              && r.users == [User(name, ToHex(salt.value), hash, false, -1)] + us
              && r.storage == storage + if appended then name + [58] + ToHex(salt.value) + [58] + hash + [10] else []
            else r.users == us && r.storage == storage
  {
    hide ValidName, ValidPassword, ToHex, FromHex;
    assert Known(us, name) <==> FindUser(us, name) < |us|;
    if salt.Some? { HexRoundTrip(salt.value); }
    assert storage + [] == storage;
  }

  // ---------- the hash index ----------

  /** The 32-bit value added for one character; `char` is signed, as on x86-64 Linux. */
  function SignedChar(c: byte): int {
    if c >= 128 then c as int - 256 else c as int
  }

  /** The multiply-by-33 hash of `hash_username` before the final reduction. */
  function NameHash(s: Bytes): (h: nat)
    ensures h < 0x1_0000_0000
  {
    if s == [] then 5381 else (NameHash(s[..|s| - 1]) * 33 + SignedChar(s[|s| - 1])) % 0x1_0000_0000
  }

  function Bucket(s: Bytes): (b: nat)
    ensures b < USER_HASH_BUCKETS
  {
    NameHash(s) % USER_HASH_BUCKETS
  }

  /** `hash_username` */
  method HashUsername(username: Bytes) returns (bucket: nat)
    ensures bucket == Bucket(username)
  {
    var hash: nat := 5381;
    var i := 0;
    while i < |username|
      invariant i <= |username| && hash == NameHash(username[..i])
    {
      assert username[..i + 1][..i] == username[..i];
      hash := ((hash * 32 + hash) + SignedChar(username[i])) % 0x1_0000_0000;
      i := i + 1;
    }
    assert username[..i] == username;
    return hash % USER_HASH_BUCKETS;
  }

  /** Some buckets: the empty name, one letter, two letters, and a byte above 127, which counts as negative. */
  lemma BucketExamples()
    ensures Bucket([]) == 5381 % 101 && Bucket([97]) == 177670 % 101 && Bucket([97, 98]) == 5863208 % 101
    ensures Bucket([200]) == 177517 % 101
  {
    assert [97 as byte][..0] == [] && [200 as byte][..0] == [] && [97 as byte, 98][..1] == [97];
  }

  // ---------- restarting ----------

  /** The next line as `fgets` returns it into a 512-byte buffer. */
  function NextLine(file: Bytes): (line: Bytes)
    requires file != []
    ensures 0 < |line| <= |file| && |line| <= 511 && line == file[..|line|]
  {
    LinePrefix(file, 511)
  }

  function LinePrefix(file: Bytes, room: nat): (line: Bytes)
    requires file != [] && 0 < room
    ensures 0 < |line| <= room && |line| <= |file| && line == file[..|line|]
    decreases room
  {
    if file[0] == NEWLINE || room == 1 || |file| == 1 then [file[0]]
    else [file[0]] + LinePrefix(file[1..], room - 1)
  }

  /** A line ends with the first newline, with the last byte there is room for, or with the file. */
  lemma {:induction false} LinePrefixMeaning(file: Bytes, room: nat)
    requires file != [] && 0 < room
    ensures var line := LinePrefix(file, room);
            NEWLINE !in line[..|line| - 1] && (line[|line| - 1] == NEWLINE || |line| == room || line == file)
    decreases room
  {
    var line := LinePrefix(file, room);
    if file[0] != NEWLINE && room > 1 && |file| > 1 {
      LinePrefixMeaning(file[1..], room - 1);
      assert line[1..] == LinePrefix(file[1..], room - 1);
    }
  }

  lemma NextLineMeaning(file: Bytes)
    requires file != []
    ensures var line := NextLine(file);
            NEWLINE !in line[..|line| - 1] && (line[|line| - 1] == NEWLINE || |line| == 511 || line == file)
  {
    LinePrefixMeaning(file, 511);
  }

  predicate Delimiter(c: byte) {
    c == COLON || c == NEWLINE
  }

  datatype Token = Token(text: Option<Bytes>, rest: Bytes)

  /** One call of `strtok(_, ":\n")`. */
  function StrTok(s: Bytes): (t: Token)
    ensures t.text.Some? ==> |t.rest| <= |s|
  {
    if s == [] then Token(None, [])
    else if Delimiter(s[0]) then StrTok(s[1..])
    else
      var n := TokenLength(s);
      Token(Some(s[..n]), if n < |s| then s[n + 1..] else [])
  }

  function TokenLength(s: Bytes): (n: nat)
    ensures n <= |s| && (n < |s| ==> Delimiter(s[n])) && forall i :: 0 <= i < n ==> !Delimiter(s[i])
  {
    if s == [] || Delimiter(s[0]) then 0 else TokenLength(s[1..]) + 1
  }

  /** A token is what stands between delimiters: those before it are skipped, and the one after it is used up. */
  lemma {:induction false} StrTokMeaning(s: Bytes) returns (k: nat)
    ensures k <= |s| && forall i :: 0 <= i < k ==> Delimiter(s[i])
    ensures var t := StrTok(s);
            if t.text.None? then k == |s| && t.rest == []
            else
              var n := |t.text.value|;
              && 0 < n && k + n <= |s| && t.text.value == s[k..k + n] && (forall i :: k <= i < k + n ==> !Delimiter(s[i]))
              && (if k + n == |s| then t.rest == [] else Delimiter(s[k + n]) && t.rest == s[k + n + 1..])
  {
    if s != [] && Delimiter(s[0]) {
      k := StrTokMeaning(s[1..]);
      k := k + 1;
    } else {
      k := 0;
    }
  }

  /** One line of the file read into the list: malformed lines and known names are skipped. */
  function LoadLine(us: seq<User>, line: Bytes): seq<User> {
    var name := StrTok(CString(line));
    var salt := StrTok(name.rest);
    var hash := StrTok(salt.rest);
    if name.text.None? || salt.text.None? || hash.text.None?
       || !ValidName(name.text.value) || |salt.text.value| != SALT_HEX_LEN
       || |hash.text.value| != PASSWORD_HASH_HEX_LEN || FindUser(us, name.text.value) < |us|
    then us
    else [User(name.text.value, salt.text.value, hash.text.value, false, -1)] + us
  }

  /** `user_store_load` onto the list `us` */
  function LoadFrom(us: seq<User>, file: Bytes): seq<User>
    decreases |file|
  {
    if file == [] then us
    else var line := NextLine(file); LoadFrom(LoadLine(us, line), file[|line|..])
  }

  predicate PrintableUser(u: User) {
    && ValidUser(u)
    && NUL !in u.salt && COLON !in u.salt && NEWLINE !in u.salt
    && NUL !in u.hash && COLON !in u.hash && NEWLINE !in u.hash
  }

  lemma {:induction false} TokenOf(s: Bytes, d: byte, rest: Bytes)
    requires COLON !in s && NEWLINE !in s && Delimiter(d)
    ensures TokenLength(s + [d] + rest) == |s|
  {
    if s != [] {
      TokenOf(s[1..], d, rest);
      assert (s + [d] + rest)[1..] == s[1..] + [d] + rest;
    }
  }

  lemma TokenRead(s: Bytes, d: byte, rest: Bytes)
    requires s != [] && COLON !in s && NEWLINE !in s && Delimiter(d)
    ensures StrTok(s + [d] + rest) == Token(Some(s), rest)
  {
    TokenOf(s, d, rest);
    var t := s + [d] + rest;
    assert t[0] == s[0] && t[..|s|] == s && t[|s| + 1..] == rest;
  }

  lemma {:induction false} LineRead(line: Bytes, rest: Bytes, room: nat)
    requires NEWLINE !in line && |line| < room
    ensures LinePrefix(line + [NEWLINE] + rest, room) == line + [NEWLINE]
    decreases |line|
  {
    var f := line + [NEWLINE] + rest;
    if line != [] {
      LineRead(line[1..], rest, room - 1);
      assert f[1..] == line[1..] + [NEWLINE] + rest;
    }
  }

  lemma RecordShape(u: User)
    requires PrintableUser(u)
    ensures RecordLine(u) == u.name + [COLON] + (u.salt + [COLON] + (u.hash + [NEWLINE]))
    ensures CString(RecordLine(u)) == RecordLine(u)
  {
    hide CString;
    var head := u.name + [COLON];
    assert head + u.salt + [COLON] + u.hash + [NEWLINE] == head + (u.salt + [COLON] + (u.hash + [NEWLINE]));
    CStringOf(RecordLine(u), []);
  }

  lemma RecordTokens(u: User)
    requires PrintableUser(u)
    ensures var t := u.salt + [COLON] + (u.hash + [NEWLINE]);
            && StrTok(u.name + [COLON] + t) == Token(Some(u.name), t)
            && StrTok(t) == Token(Some(u.salt), u.hash + [NEWLINE])
            && StrTok(u.hash + [NEWLINE]) == Token(Some(u.hash), [])
  {
    hide StrTok;
    TokenRead(u.name, COLON, u.salt + [COLON] + (u.hash + [NEWLINE]));
    TokenRead(u.salt, COLON, u.hash + [NEWLINE]);
    TokenRead(u.hash, NEWLINE, []);
    assert u.hash + [NEWLINE] + [] == u.hash + [NEWLINE];
  }

  /** A written record is read back as the same user, offline. */
  lemma RecordReadBack(us: seq<User>, u: User)
    requires PrintableUser(u) && FindUser(us, u.name) == |us|
    ensures LoadLine(us, RecordLine(u)) == [u.(online := false, fd := -1)] + us
  {
    hide CString, StrTok, RecordLine;
    RecordShape(u);
    RecordTokens(u);
  }

  lemma RecordIsOneLine(u: User, rest: Bytes)
    requires PrintableUser(u)
    ensures NextLine(RecordLine(u) + rest) == RecordLine(u)
  {
    var body := u.name + [COLON] + u.salt + [COLON] + u.hash;
    assert RecordLine(u) == body + [NEWLINE];
    LineRead(body, rest, 511);
  }

  function AllOffline(us: seq<User>): (r: seq<User>)
    ensures |r| == |us| && forall i :: 0 <= i < |us| ==> r[i] == us[i].(online := false, fd := -1)
  {
    seq(|us|, i requires 0 <= i < |us| => us[i].(online := false, fd := -1))
  }

  /** Reading a file that is some text followed by one more record. */
  lemma {:induction false} LoadAppends(us: seq<User>, file: Bytes, u: User)
    requires PrintableUser(u) && WholeLines(file)
    ensures LoadFrom(us, file + RecordLine(u)) == LoadLine(LoadFrom(us, file), RecordLine(u))
    ensures WholeLines(file + RecordLine(u))
    decreases |file|
  {
    RecordIsOneLine(u, []);
    var r := RecordLine(u);
    assert r + [] == r;
    if file == [] {
      assert file + r == r && r[|r|..] == [];
      assert LoadFrom(LoadLine(us, r), []) == LoadLine(us, r);
    } else {
      var line := NextLine(file);
      LineStays(file, r);
      assert (file + r)[|line|..] == file[|line|..] + r;
      LoadAppends(LoadLine(us, line), file[|line|..], u);
    }
  }

  /** Every line `fgets` cuts off ends in a newline, so none was split or left open. */
  predicate WholeLines(file: Bytes)
    decreases |file|
  {
    file == [] || (var line := NextLine(file); line[|line| - 1] == NEWLINE && WholeLines(file[|line|..]))
  }

  lemma {:induction false} PrefixStays(file: Bytes, more: Bytes, room: nat)
    requires file != [] && 0 < room && LinePrefix(file, room)[|LinePrefix(file, room)| - 1] == NEWLINE
    ensures LinePrefix(file + more, room) == LinePrefix(file, room)
    decreases room
  {
    if file[0] != NEWLINE && room > 1 && |file| > 1 {
      PrefixStays(file[1..], more, room - 1);
      assert (file + more)[1..] == file[1..] + more;
    }
  }

  lemma LineStays(file: Bytes, more: Bytes)
    requires file != [] && WholeLines(file)
    ensures NextLine(file + more) == NextLine(file)
  {
    PrefixStays(file, more, 511);
  }

  // ---------- what storage holds ----------

  /** The file stands for the list: loading it gives the same users in the same order, all offline. */
  predicate StorageMatches(us: seq<User>, storage: Bytes) {
    WholeLines(storage) && LoadFrom([], storage) == AllOffline(us)
  }

  lemma NoNameAfterOffline(us: seq<User>, name: Bytes)
    ensures FindUser(AllOffline(us), name) == FindUser(us, name)
  {
    FindUserIs(AllOffline(us), name, FindUser(us, name));
  }

  /** A registration adds a user exactly when name and password are valid, there is a salt and the name is new. */
  predicate AddsUser(us: seq<User>, name: Bytes, password: Bytes, salt: Option<Salt>) {
    ValidName(name) && ValidPassword(password) && salt.Some? && FindUser(us, name) == |us|
  }

  lemma RegisteredIsPrintable(digest: Hasher, us: seq<User>, storage: Bytes, name: Bytes, password: Bytes,
                              salt: Option<Salt>, appended: bool)
    ensures var r := Register(digest, us, storage, name, password, salt, appended);
            r.users != us <==> AddsUser(us, name, password, salt)
    ensures var r := Register(digest, us, storage, name, password, salt, appended);
            r.users != us ==> |r.users| == |us| + 1 && r.users[1..] == us && PrintableUser(r.users[0])
                              && r.users[0].name == name && !r.users[0].online && FindUser(us, name) == |us|
                              && salt.Some? && HashPassword(digest, password, r.users[0].salt) == Some(r.users[0].hash)
  {
    if salt.Some? {
      HexRoundTrip(salt.value);
      ToHexPrintable(salt.value);
      if HashPassword(digest, password, ToHex(salt.value)).Some? {
        ToHexPrintable(digest(FromHex(ToHex(salt.value)), password));
      }
    }
  }

  /**
   A registration keeps file and memory in step exactly when it adds nobody or its line is written: a
   failed append leaves a user that the next start will not know.
   */
  lemma RegistrationAndStorage(digest: Hasher, us: seq<User>, storage: Bytes, name: Bytes, password: Bytes,
                               salt: Option<Salt>, appended: bool)
    requires StorageMatches(us, storage)
    ensures var r := Register(digest, us, storage, name, password, salt, appended);
            StorageMatches(r.users, r.storage) <==> !AddsUser(us, name, password, salt) || appended
  {
    var r := Register(digest, us, storage, name, password, salt, appended);
    RegisteredIsPrintable(digest, us, storage, name, password, salt, appended);
    if r.users != us {
      NoNameAfterOffline(us, name);
      assert r.users == [r.users[0]] + us;
      assert AllOffline(r.users) == [r.users[0].(online := false, fd := -1)] + AllOffline(us);
      if appended {
        LoadAppends([], storage, r.users[0]);
        RecordReadBack(AllOffline(us), r.users[0]);
      } else {
        assert |LoadFrom([], r.storage)| == |us|;
      }
    }
  }
}
