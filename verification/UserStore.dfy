/**
 The user store as common/user.c keeps it: one linked list of all users and, over the same nodes, a
 table of 101 hash chains. `Contents` is the list as values, head first.
 */
module UserStore {
  import opened Basics
  import opened Credentials
  import opened GroupModel
  import opened UserModel

  class UserNode {
    const name: Bytes
    const salt: Bytes
    const hash: Bytes
    var online: bool
    var fd: int
    var next: UserNode?
    var hashNext: UserNode?

    constructor (name: Bytes, salt: Bytes, hash: Bytes)
      ensures this.name == name && this.salt == salt && this.hash == hash && !online && fd == -1
    {
      this.name, this.salt, this.hash := name, salt, hash;
      online, fd, next, hashNext := false, -1, null, null;
    }

    function View(): User
      reads this`online, this`fd
    {
      User(name, salt, hash, online, fd)
    }
  }

  ghost function NodeAt(ns: seq<UserNode>, i: nat): UserNode? {
    if i < |ns| then ns[i] else null
  }

  /** The first position from `from` on whose name falls into bucket `b`. */
  ghost function NextIn(ns: seq<UserNode>, b: nat, from: nat): (j: nat)
    requires from <= |ns|
    ensures from <= j <= |ns| && (j < |ns| ==> Bucket(ns[j].name) == b)
    ensures forall k :: from <= k < j ==> Bucket(ns[k].name) != b
    decreases |ns| - from
  {
    if from == |ns| || Bucket(ns[from].name) == b then from else NextIn(ns, b, from + 1)
  }

  lemma NextInOnce(ns: seq<UserNode>, b: nat, from: nat)
    requires from <= |ns|
    ensures NodeAt(ns, NextIn(ns, b, from)) == if from == |ns| then null
                                               else if Bucket(ns[from].name) == b then ns[from]
                                               else NodeAt(ns, NextIn(ns, b, from + 1))
  {
    hide Bucket;
  }

  lemma {:induction false} NextInShift(node: UserNode, ns: seq<UserNode>, b: nat, from: nat)
    requires from <= |ns|
    ensures NextIn([node] + ns, b, from + 1) == NextIn(ns, b, from) + 1
    ensures NodeAt([node] + ns, NextIn([node] + ns, b, from + 1)) == NodeAt(ns, NextIn(ns, b, from))
    decreases |ns| - from
  {
    if from < |ns| && Bucket(ns[from].name) != b {
      NextInShift(node, ns, b, from + 1);
    }
  }

  lemma FirstInShift(node: UserNode, ns: seq<UserNode>, b: nat)
    ensures var all := [node] + ns;
            NodeAt(all, NextIn(all, b, 0)) == if Bucket(node.name) == b then node else NodeAt(ns, NextIn(ns, b, 0))
  {
    hide Bucket;
    NextInShift(node, ns, b, 0);
  }

  ghost predicate Owned(ns: seq<UserNode>, repr: set<object>) {
    forall i :: 0 <= i < |ns| ==> ns[i] in repr
  }

  /** Following `next` from the first node spells out the users `us`. */
  ghost predicate Spells(ns: seq<UserNode>, us: seq<User>)
    reads ns`online, ns`fd, ns`next
  {
    && |ns| == |us|
    && (forall i :: 0 <= i < |ns| ==> ns[i].View() == us[i])
    && (forall i {:trigger ns[i].next} :: 0 <= i < |ns| ==> ns[i].next == NodeAt(ns, i + 1))
  }

  /** Each user leads to the next one of its bucket in list order. */
  ghost predicate HashLinked(ns: seq<UserNode>)
    reads ns`hashNext
  {
    forall i {:trigger ns[i].hashNext} :: 0 <= i < |ns| ==>
      ns[i].hashNext == NodeAt(ns, NextIn(ns, Bucket(ns[i].name), i + 1))
  }

  /** Each bucket leads to its first user in list order, and each user to the next one of its bucket. */
  ghost predicate Chained(ns: seq<UserNode>, buckets: array<UserNode?>)
    reads ns`hashNext, buckets
  {
    && buckets.Length == USER_HASH_BUCKETS
    && (forall b :: 0 <= b < USER_HASH_BUCKETS ==> buckets[b] == NodeAt(ns, NextIn(ns, b, 0)))
    && HashLinked(ns)
  }

  lemma SpellsOneMore(node: UserNode, ns: seq<UserNode>, us: seq<User>)
    requires Spells(ns, us) && node.next == NodeAt(ns, 0)
    ensures Spells([node] + ns, [node.View()] + us)
  {
  }

  lemma SpellsChanged(ns: seq<UserNode>, us: seq<User>, k: nat)
    requires k < |ns| == |us| && forall i :: 0 <= i < |ns| && i != k ==> ns[i].View() == us[i]
    requires forall i {:trigger ns[i].next} :: 0 <= i < |ns| ==> ns[i].next == NodeAt(ns, i + 1)
    ensures Spells(ns, us[k := ns[k].View()])
  {
  }

  lemma ChainsUnshifted(node: UserNode, ns: seq<UserNode>, i: nat)
    requires i < |ns| && ns[i].hashNext == NodeAt(ns, NextIn(ns, Bucket(ns[i].name), i + 1))
    ensures ([node] + ns)[i + 1].hashNext
            == NodeAt([node] + ns, NextIn([node] + ns, Bucket(([node] + ns)[i + 1].name), i + 2))
  {
    NextInShift(node, ns, Bucket(ns[i].name), i + 1);
  }

  /** A node put in front of the list and of its own chain leaves all chains right. */
  lemma ChainedOneMore(node: UserNode, ns: seq<UserNode>, buckets: array<UserNode?>)
    requires buckets.Length == USER_HASH_BUCKETS && buckets[Bucket(node.name)] == node
    requires node.hashNext == NodeAt(ns, NextIn(ns, Bucket(node.name), 0))
    requires forall b :: 0 <= b < USER_HASH_BUCKETS && b != Bucket(node.name) ==> buckets[b] == NodeAt(ns, NextIn(ns, b, 0))
    requires HashLinked(ns)
    ensures Chained([node] + ns, buckets)
  {
    hide Bucket, NextIn, NodeAt;
    var all := [node] + ns;
    forall b | 0 <= b < USER_HASH_BUCKETS ensures buckets[b] == NodeAt(all, NextIn(all, b, 0)) {
      FirstInShift(node, ns, b);
    }
    NextInShift(node, ns, Bucket(node.name), 0);
    forall i {:trigger all[i].hashNext} | 0 <= i < |all|
      ensures all[i].hashNext == NodeAt(all, NextIn(all, Bucket(all[i].name), i + 1))
    {
      if i > 0 {
        assert all[i] == ns[i - 1];
        ChainsUnshifted(node, ns, i - 1);
      }
    }
  }

  class UserStore {
    const digest: Hasher
    const buckets: array<UserNode?>
    var head: UserNode?
    var storage: Bytes

    ghost var nodes: seq<UserNode>
    ghost var Contents: seq<User>
    ghost var Repr: set<object>

    ghost predicate Valid()
      reads this, Repr
      ensures Valid() ==> this in Repr
    {
      && this in Repr && buckets in Repr && Owned(nodes, Repr)
      && Spells(nodes, Contents) && head == NodeAt(nodes, 0)
      && Chained(nodes, buckets)
      && UsersOk(Contents)
    }

    lemma NodeFacts(k: nat)
      requires Valid()
      ensures this in Repr && |nodes| == |Contents| && head == NodeAt(nodes, 0)
      ensures k < |nodes| ==> nodes[k] in Repr && nodes[k].View() == Contents[k] && nodes[k].next == NodeAt(nodes, k + 1)
    {
    }

    lemma ChainFacts(k: nat)
      requires Valid()
      ensures k < |nodes| ==> nodes[k].hashNext == NodeAt(nodes, NextIn(nodes, Bucket(nodes[k].name), k + 1))
    {
    }

    /** `user_store_init`; `storage` is what the file at the storage path holds. */
    constructor (digest: Hasher, storage: Bytes)
      ensures Valid() && fresh(Repr)
      ensures Contents == [] && this.digest == digest && this.storage == storage
    {
      this.digest, this.storage := digest, storage;
      var table := new UserNode?[USER_HASH_BUCKETS](_ => null);
      buckets := table;
      head := null;
      nodes, Contents, Repr := [], [], {this, table};
    }

    /** `find_user_locked`: walks one chain, finds what a search of the whole list would find. */
    method FindNode(username: Bytes) returns (r: UserNode?)
      requires Valid()
      ensures r == if ValidName(username) then NodeAt(nodes, FindUser(Contents, username)) else null
    {
      if !ValidName(username) {
        return null;
      }
      var bucket := HashUsername(username);
      hide Bucket;
      r := buckets[bucket];
      ghost var k := NextIn(nodes, bucket, 0);
      while r != null
        invariant k <= |nodes| && r == NodeAt(nodes, k)
        invariant k < |nodes| ==> Bucket(nodes[k].name) == bucket
        invariant forall j :: 0 <= j < k ==> Contents[j].name != username
        decreases |nodes| - k
      {
        assert nodes[k].View() == Contents[k];
        if r.name == username {
          FindUserIs(Contents, username, k);
          return;
        }
        ghost var n := NextIn(nodes, bucket, k + 1);
        forall j | k < j < n ensures Contents[j].name != username {
          assert Bucket(nodes[j].name) != bucket && nodes[j].View() == Contents[j];
        }
        r := r.hashNext;
        k := n;
      }
      FindUserIs(Contents, username, |Contents|);
    }

    /** `insert_user_locked`: a name already in the store is refused. */
    method Insert(user: UserNode) returns (ok: bool)
      requires Valid() && user !in Repr && ValidUser(user.View())
      modifies this, buckets, user
      ensures Valid() && storage == old(storage) && user.View() == old(user.View())
      ensures ok <==> FindUser(old(Contents), user.name) == |old(Contents)|
      ensures ok ==> Repr == old(Repr) + {user} && Contents == [user.View()] + old(Contents)
      ensures !ok ==> Repr == old(Repr) && Contents == old(Contents)
    {
      hide Valid, NodeAt;
      var known := FindNode(user.name);
      NodeFacts(FindUser(Contents, user.name));
      KnownOrNot(user.name);
      if known != null {
        return false;
      }
      Prepend(user);
      return true;
    }

    lemma KnownOrNot(name: Bytes)
      requires Valid()
      ensures NodeAt(nodes, FindUser(Contents, name)) == null <==> FindUser(Contents, name) == |Contents|
    {
    }

    /** The new node becomes the head of the list and of its chain. */
    method Prepend(user: UserNode)
      requires Valid() && user !in Repr && ValidUser(user.View())
      requires FindUser(Contents, user.name) == |Contents|
      modifies this, buckets, user
      ensures Valid() && Repr == old(Repr) + {user} && storage == old(storage)
      ensures user.View() == old(user.View()) && Contents == [user.View()] + old(Contents)
    {
      hide Bucket, UsersOk, Spells, HashLinked, NextIn, ValidUser, FindUser;
      ghost var ns, us := nodes, Contents;
      assert user !in ns;
      var bucket := HashUsername(user.name);
      user.next := head;
      user.hashNext := buckets[bucket];
      buckets[bucket] := user;
      assert Spells(ns, us);
      assert HashLinked(ns);
      ChainedOneMore(user, ns, buckets);
      SpellsOneMore(user, ns, us);
      hide Chained;
      head := user;
      nodes := [user] + ns;
      Contents := [user.View()] + us;
      Repr := Repr + {user};
      OneMoreUser(user.View(), us);
      assert head == NodeAt(nodes, 0);
    }

    /** Both flags of one user change in place. */
    method SetOnline(user: UserNode, ghost k: nat, online: bool, fd: int)
      requires Valid() && k < |nodes| && user == nodes[k]
      modifies user`online, user`fd, this`Contents
      ensures Valid() && Contents == old(Contents)[k := old(Contents)[k].(online := online, fd := fd)]
    {
      ghost var us := Contents;
      forall i | 0 <= i < |nodes| && i != k ensures nodes[i] != user {
        NodeFacts(i);
        assert us[i].name != us[k].name;
      }
      SameNamesOk(us, k, online, fd);
      NodeFacts(k);
      hide UsersOk, Chained, Owned, ValidUser;
      user.online, user.fd := online, fd;
      assert user.View() == us[k].(online := online, fd := fd);
      Contents := us[k := us[k].(online := online, fd := fd)];
      SpellsChanged(nodes, us, k);
      hide Spells;
    }

    /** `user_store_register` */
    method RegisterUser(username: Bytes, password: Bytes, salt: Option<Salt>, appended: bool) returns (rc: UserResult)
      requires Valid()
      modifies Repr
      ensures Valid() && fresh(Repr - old(Repr))
      ensures Registration(Contents, storage, rc)
              == Register(digest, old(Contents), old(storage), username, password, salt, appended)
    {
      hide HashPassword, Spells, Chained, UsersOk, Owned, RecordLine, ToHex, ValidPassword;
      if !ValidName(username) || !ValidPassword(password) {
        return BadInput;
      }
      if salt.None? {
        return IoFailure;
      }
      var saltHex := ToHex(salt.value);
      var hash := HashPassword(digest, password, saltHex);
      if hash.None? {
        return IoFailure;
      }
      var known := FindNode(username);
      NodeFacts(FindUser(Contents, username));
      if known != null {
        return Exists;
      }
      var user := new UserNode(username, saltHex, hash.value);
      var inserted := Insert(user);
      if !inserted || !appended {
        return IoFailure;
      }
      storage := storage + RecordLine(user.View());
      return Ok;
    }

    /** `user_store_login` */
    method LogIn(username: Bytes, password: Bytes, fd: int) returns (rc: UserResult)
      requires Valid()
      modifies Repr
      ensures Valid() && Repr == old(Repr) && storage == old(storage)
      ensures Login(Contents, rc) == LoginUser(digest, old(Contents), username, password, fd)
    {
      if !ValidName(username) || !ValidPassword(password) {
        return BadInput;
      }
      var user := FindNode(username);
      NodeFacts(FindUser(Contents, username));
      if user == null {
        return Unknown;
      }
      if !VerifyPassword(digest, password, user.salt, user.hash) {
        return BadPassword;
      }
      if user.online {
        return AlreadyOnline;
      }
      SetOnline(user, FindUser(Contents, username), true, fd);
      return Ok;
    }

    /** The list scan for the first online user on a socket. */
    method FindNodeByFd(fd: int) returns (r: UserNode?)
      requires Valid()
      ensures r == NodeAt(nodes, FindFd(Contents, fd))
    {
      r := head;
      ghost var k := 0;
      NodeFacts(0);
      while r != null
        invariant k <= |nodes| == |Contents| && r == NodeAt(nodes, k)
        invariant forall j :: 0 <= j < k ==> !At(Contents[j], fd)
        decreases |nodes| - k
      {
        NodeFacts(k);
        if r.online && r.fd == fd {
          FindFdIs(Contents, fd, k);
          return;
        }
        r := r.next;
        k := k + 1;
      }
      FindFdIs(Contents, fd, k);
    }

    /** `user_store_logout_fd`; true is USER_OK. */
    method LogOutFd(fd: int) returns (found: bool)
      requires Valid()
      modifies Repr
      ensures Valid() && Repr == old(Repr) && storage == old(storage)
      ensures Contents == LogoutFd(old(Contents), fd)
      ensures found <==> FindFd(old(Contents), fd) < |old(Contents)|
    {
      var user := FindNodeByFd(fd);
      NodeFacts(FindFd(Contents, fd));
      if user == null {
        return false;
      }
      SetOnline(user, FindFd(Contents, fd), false, -1);
      return true;
    }

    /** `user_store_username_by_fd` */
    method UsernameByFd(fd: int) returns (r: Option<Bytes>)
      requires Valid()
      ensures r == NameByFd(Contents, fd)
    {
      var user := FindNodeByFd(fd);
      NodeFacts(FindFd(Contents, fd));
      return if user == null then None else Some(user.name);
    }

    /** `user_store_get_fd` */
    method FdOf(username: Bytes) returns (r: FdResult)
      requires Valid()
      ensures r == GetFd(Contents, username)
    {
      if !ValidName(username) {
        return NoFd(BadInput);
      }
      var user := FindNode(username);
      NodeFacts(FindUser(Contents, username));
      if user == null {
        return NoFd(Unknown);
      }
      if !user.online {
        return NoFd(Offline);
      }
      return Fd(user.fd);
    }

    /** `user_store_snapshot_online_fds` */
    method SnapshotOnlineFds(except: int, max: nat) returns (fds: seq<int>)
      requires Valid()
      ensures fds == OnlineFds(Contents, except, max)
    {
      hide Valid, OnlineFds;
      fds := [];
      var cur := head;
      ghost var k := 0;
      NodeFacts(0);
      assert Contents[0..] == Contents;
      while cur != null && |fds| < max
        invariant k <= |nodes| == |Contents| && cur == NodeAt(nodes, k) && |fds| <= max
        invariant OnlineFds(Contents, except, max) == fds + OnlineFds(Contents[k..], except, max - |fds|)
        decreases |nodes| - k
      {
        NodeFacts(k);
        OnlineFdsNext(Contents, k, except, max - |fds|);
        if cur.online && cur.fd >= 0 && cur.fd != except {
          ghost var rest := OnlineFds(Contents[k + 1..], except, max - |fds| - 1);
          assert fds + ([cur.fd] + rest) == fds + [cur.fd] + rest;
          fds := fds + [cur.fd];
        }
        cur := cur.next;
        k := k + 1;
      }
      OnlineFdsEnd(Contents[k..], except, max - |fds|);
    }

    /** `user_store_online_list`, before the text for an empty list is put in; `None` is USER_ERR_IO. */
    method OnlineList() returns (r: Option<Bytes>, count: nat)
      requires Valid()
      ensures r == OnlineText(Contents, [], 0)
      ensures r.Some? ==> (count == 0 <==> OnlineCount(Contents) == 0)
    {
      hide Valid, OnlineText, OnlineCount;
      var text: Bytes := [];
      count := 0;
      var cur := head;
      ghost var k := 0;
      NodeFacts(0);
      assert Contents[0..] == Contents;
      while cur != null
        invariant k <= |nodes| == |Contents| && cur == NodeAt(nodes, k)
        invariant OnlineText(Contents, [], 0) == OnlineText(Contents[k..], text, count)
        invariant OnlineCount(Contents) == count + OnlineCount(Contents[k..])
        decreases |nodes| - k
      {
        NodeFacts(k);
        OnlineTextNext(Contents, k, text, count);
        if cur.online {
          var piece := (if count == 0 then [] else [NEWLINE]) + cur.name;
          if |piece| >= PACKET_DATA_MAX - |text| {
            return None, count;
          }
          text := text + piece;
          count := count + 1;
        }
        cur := cur.next;
        k := k + 1;
      }
      OnlineTextEnd(Contents[k..], text, count);
      return Some(text), count;
    }

    /** `user_store_load` from the storage file into an initialised store. */
    method Load(ready: bool) returns (rc: UserResult)
      requires Valid()
      modifies Repr
      ensures Valid() && fresh(Repr - old(Repr)) && storage == old(storage)
      ensures rc == if ready then Ok else IoFailure
      ensures Contents == if ready then LoadFrom(old(Contents), storage) else old(Contents)
    {
      if !ready {
        return IoFailure;
      }
      var file := storage;
      while file != []
        invariant Valid() && fresh(Repr - old(Repr)) && storage == old(storage)
        invariant LoadFrom(old(Contents), storage) == LoadFrom(Contents, file)
        decreases |file|
      {
        var line := NextLine(file);
        file := file[|line|..];
        var name := StrTok(CString(line));
        var salt := StrTok(name.rest);
        var hash := StrTok(salt.rest);
        if name.text.None? || salt.text.None? || hash.text.None?
           || !ValidName(name.text.value) || |salt.text.value| != SALT_HEX_LEN
           || |hash.text.value| != PASSWORD_HASH_HEX_LEN
        {
          continue;
        }
        var known := FindNode(name.text.value);
        NodeFacts(FindUser(Contents, name.text.value));
        if known != null {
          continue;
        }
        var user := new UserNode(name.text.value, salt.text.value, hash.text.value);
        var _ := Insert(user);
      }
      return Ok;
    }

    // ---------- the index ----------

    /** Each chain is the main list filtered by bucket, in list order. */
    lemma {:induction false} ChainIsFilteredList(b: nat, from: nat, steps: nat)
      requires Valid() && b < USER_HASH_BUCKETS && from <= |nodes| <= from + steps
      ensures Walk(NodeAt(nodes, NextIn(nodes, b, from)), steps) == InBucket(Contents[from..], b)
      decreases |nodes| - from
    {
      hide Valid, Bucket, Walk, NextIn, InBucket;
      NextInOnce(nodes, b, from);
      NodeFacts(from);
      ChainFacts(from);
      if from == |nodes| {
        WalkNowhere(steps);
        InBucketNone(Contents[from..], b);
      } else {
        InBucketNext(Contents, from, b);
        if Bucket(nodes[from].name) == b {
          ChainIsFilteredList(b, from + 1, steps - 1);
          WalkOn(nodes[from], steps);
        } else {
          ChainIsFilteredList(b, from + 1, steps);
        }
      }
    }

    /** In particular each table entry leads to all users of its bucket and no others. */
    lemma BucketHoldsItsUsers(b: nat)
      requires Valid() && b < USER_HASH_BUCKETS
      ensures Walk(buckets[b], |nodes|) == InBucket(Contents, b)
    {
      ChainIsFilteredList(b, 0, |nodes|);
      assert Contents[0..] == Contents;
    }
  }

  /** The users met when following one hash chain. */
  ghost function Walk(n: UserNode?, steps: nat): seq<User>
    reads *
  {
    if n == null || steps == 0 then [] else [n.View()] + Walk(n.hashNext, steps - 1)
  }

  lemma WalkNowhere(steps: nat)
    ensures Walk(null, steps) == []
  {
  }

  lemma WalkOn(n: UserNode, steps: nat)
    requires steps > 0
    ensures Walk(n, steps) == [n.View()] + Walk(n.hashNext, steps - 1)
  {
  }

  lemma InBucketNone(us: seq<User>, b: nat)
    ensures us == [] ==> InBucket(us, b) == []
  {
  }

  lemma InBucketNext(us: seq<User>, k: nat, b: nat)
    requires k < |us|
    ensures InBucket(us[k..], b) == if Bucket(us[k].name) == b then [us[k]] + InBucket(us[k + 1..], b) else InBucket(us[k + 1..], b)
  {
    hide Bucket;
    assert us[k..][0] == us[k] && us[k..][1..] == us[k + 1..];
  }

  lemma OnlineTextNext(us: seq<User>, k: nat, text: Bytes, count: nat)
    requires k < |us|
    ensures OnlineCount(us[k..]) == (if us[k].online then 1 else 0) + OnlineCount(us[k + 1..])
    ensures var piece := (if count == 0 then [] else [NEWLINE]) + us[k].name;
            OnlineText(us[k..], text, count)
            == if !us[k].online then OnlineText(us[k + 1..], text, count)
               else if |text| + |piece| >= PACKET_DATA_MAX then None else OnlineText(us[k + 1..], text + piece, count + 1)
  {
    assert us[k..][0] == us[k] && us[k..][1..] == us[k + 1..];
  }

  lemma OnlineTextEnd(us: seq<User>, text: Bytes, count: nat)
    ensures us == [] ==> OnlineText(us, text, count) == Some(text) && OnlineCount(us) == 0
  {
  }

  lemma OnlineFdsNext(us: seq<User>, k: nat, except: int, max: nat)
    requires k < |us| && 0 < max
    ensures OnlineFds(us[k..], except, max)
            == if us[k].online && us[k].fd >= 0 && us[k].fd != except
               then [us[k].fd] + OnlineFds(us[k + 1..], except, max - 1) else OnlineFds(us[k + 1..], except, max)
  {
    assert us[k..][0] == us[k] && us[k..][1..] == us[k + 1..];
  }

  lemma OnlineFdsEnd(us: seq<User>, except: int, max: nat)
    requires us == [] || max == 0
    ensures OnlineFds(us, except, max) == []
  {
  }

  function InBucket(us: seq<User>, b: nat): seq<User> {
    if us == [] then [] else (if Bucket(us[0].name) == b then [us[0]] else []) + InBucket(us[1..], b)
  }

  lemma OneMoreUser(u: User, us: seq<User>)
    requires UsersOk(us) && ValidUser(u) && FindUser(us, u.name) == |us|
    ensures UsersOk([u] + us)
  {
  }

  lemma SameNamesOk(us: seq<User>, k: nat, online: bool, fd: int)
    requires UsersOk(us) && k < |us|
    ensures UsersOk(us[k := us[k].(online := online, fd := fd)])
  {
  }
}
