/** attributeWithProcFS of internal/localdiagnosis/procfs.go: which process owns which listening socket. */
module ProcAttribution {
  import opened Text
  import opened Sorting
  import opened Procfs

  /** What procfs answers during one collection; what it has no answer for is a read error. */
  datatype Snapshot = Snapshot(
    names: Option<seq<string>>, fds: map<string, seq<string>>, links: map<(string, string), string>)

  datatype Attribution = Attribution(owners: map<nat, nat>, complete: bool)

  const MAX_PROCESS_COUNT: nat := 32768
  const MAX_FD_COUNT: nat := 65536

  const SOCKET := "socket:["

  /** parseSocketLink */
  function SocketInode(s: string): Option<nat>
  {
    if !(SOCKET <= s) || s[|s| - 1] != ']' then None
    else
      var inode := ParseUint(s[|SOCKET|..|s| - 1]);
      if inode == Some(0) then None else inode
  }

  /** A process directory: a decimal name other than zero. */
  function Pid(name: string): Option<nat>
  {
    var pid := ParseUint(name);
    if pid == Some(0) then None else pid
  }

  predicate FdLinks(fs: Snapshot, name: string, fd: string, inode: nat)
  {
    (name, fd) in fs.links && SocketInode(fs.links[(name, fd)]) == Some(inode)
  }

  /** The process has a readable descriptor that is the socket. */
  predicate LinksTo(fs: Snapshot, name: string, inode: nat)
  {
    && Pid(name).Some? && name in fs.fds
    && exists fd :: fd in fs.fds[name] && FdLinks(fs, name, fd, inode)
  }

  /** Every descriptor of the process can be read, and they are not too many. */
  ghost predicate Readable(fs: Snapshot, name: string)
  {
    && name in fs.fds && |fs.fds[name]| <= MAX_FD_COUNT
    && forall fd :: fd in fs.fds[name] ==> (name, fd) in fs.links
  }

  function Wanted(listeners: seq<Listener>): set<nat> { set l | l in listeners && l.inode != 0 :: l.inode }

  /** What scanning one process adds: itself as the owner of wanted sockets it links that had none. */
  ghost predicate Scanned(
    fs: Snapshot, name: string, wanted: set<nat>, fds: seq<string>, owners: map<nat, nat>, owners': map<nat, nat>)
    requires Pid(name).Some?
  {
    && (forall k :: k in owners ==> k in owners' && owners'[k] == owners[k])
    && (forall k :: k in owners' && k !in owners ==>
          k in wanted && owners'[k] == Pid(name).value && exists fd :: fd in fds && FdLinks(fs, name, fd, k))
    && (forall k, fd :: k in wanted && fd in fds && FdLinks(fs, name, fd, k) ==> k in owners')
  }

  ghost predicate AllLinked(fs: Snapshot, name: string, fds: seq<string>)
  {
    forall fd :: fd in fds ==> (name, fd) in fs.links
  }

  lemma NextFd(
    fs: Snapshot, name: string, wanted: set<nat>, fds: seq<string>, fd: string, owners: map<nat, nat>,
    owners': map<nat, nat>)
    requires Pid(name).Some? && Scanned(fs, name, wanted, fds, owners, owners')
    ensures (forall k :: k in wanted && FdLinks(fs, name, fd, k) ==> k in owners') ==>
              Scanned(fs, name, wanted, fds + [fd], owners, owners')
    ensures forall k :: k in wanted && FdLinks(fs, name, fd, k) && k !in owners' ==>
              Scanned(fs, name, wanted, fds + [fd], owners, owners'[k := Pid(name).value])
  {
    assert forall x :: x in fds + [fd] <==> x in fds || x == fd;
    forall k | k in wanted && FdLinks(fs, name, fd, k) && k !in owners'
      ensures Scanned(fs, name, wanted, fds + [fd], owners, owners'[k := Pid(name).value])
    {
      var more := owners'[k := Pid(name).value];
      forall l | l in more && l !in owners
        ensures exists x :: x in fds + [fd] && FdLinks(fs, name, x, l)
      {
        assert l == k ==> fd in fds + [fd];
      }
    }
  }

  method ScanFds(fs: Snapshot, name: string, fds: seq<string>, wanted: set<nat>, owners: map<nat, nat>)
    returns (owners': map<nat, nat>, read: bool)
    requires Pid(name).Some?
    ensures read <==> AllLinked(fs, name, fds)
    ensures Scanned(fs, name, wanted, fds, owners, owners')
  {
    owners', read := owners, true;
    for i := 0 to |fds|
      invariant read <==> AllLinked(fs, name, fds[..i])
      invariant Scanned(fs, name, wanted, fds[..i], owners, owners')
    {
      var fd := fds[i];
      assert fds[..i + 1] == fds[..i] + [fd];
      NextFd(fs, name, wanted, fds[..i], fd, owners, owners');
      if (name, fd) !in fs.links {
        read := false;
        continue;
      }
      var inode := SocketInode(fs.links[(name, fd)]);
      if inode.None? || inode.value !in wanted || inode.value in owners' {
        continue;
      }
      owners' := owners'[inode.value := Pid(name).value];
    }
    assert fds[..|fds|] == fds;
  }

  method ScanProcess(fs: Snapshot, name: string, wanted: set<nat>, owners: map<nat, nat>)
    returns (owners': map<nat, nat>, complete: bool)
    requires Pid(name).Some?
    ensures complete <==> Readable(fs, name)
    ensures forall k :: k in owners ==> k in owners' && owners'[k] == owners[k]
    ensures forall k :: k in owners' && k !in owners ==> k in wanted && owners'[k] == Pid(name).value && LinksTo(fs, name, k)
    ensures complete ==> forall k :: k in wanted && LinksTo(fs, name, k) ==> k in owners'
  {
    if name !in fs.fds {
      return owners, false;
    }
    var fds := fs.fds[name];
    complete := true;
    if |fds| > MAX_FD_COUNT {
      fds := fds[..MAX_FD_COUNT];
      complete := false;
    }
    ghost var kept := fds;
    assert forall fd :: fd in kept ==> fd in fs.fds[name];
    fds := SortSlice(Less, fds);
    var read;
    owners', read := ScanFds(fs, name, fds, wanted, owners);
    complete := complete && read;
  }

  /** After the processes `names`: owners are the first of them that link the socket, as far as all could be read. */
  ghost predicate Attributed(fs: Snapshot, names: seq<string>, wanted: set<nat>, owners: map<nat, nat>, complete: bool)
  {
    && (complete <==> forall name :: name in names && Pid(name).Some? ==> Readable(fs, name))
    && (forall k :: k in owners ==> k in wanted && HasOwner(fs, names, k, owners[k]))
    && (complete ==> forall k, j :: k in wanted && 0 <= j < |names| && LinksTo(fs, names[j], k) ==> k in owners)
    && (complete ==> forall k :: k in owners ==> HasFirst(fs, names, k, owners[k]))
  }

  ghost predicate Owns(fs: Snapshot, names: seq<string>, j: int, inode: nat, pid: nat)
  {
    0 <= j < |names| && LinksTo(fs, names[j], inode) && Pid(names[j]) == Some(pid)
  }

  ghost predicate FirstOwns(fs: Snapshot, names: seq<string>, j: int, inode: nat, pid: nat)
  {
    Owns(fs, names, j, inode, pid) && forall k :: 0 <= k < j ==> !LinksTo(fs, names[k], inode)
  }

  ghost predicate HasOwner(fs: Snapshot, names: seq<string>, inode: nat, pid: nat)
  {
    exists j :: Owns(fs, names, j, inode, pid)
  }

  ghost predicate HasFirst(fs: Snapshot, names: seq<string>, inode: nat, pid: nat)
  {
    exists j :: FirstOwns(fs, names, j, inode, pid)
  }

  lemma NotAProcess(fs: Snapshot, names: seq<string>, name: string, wanted: set<nat>, owners: map<nat, nat>, complete: bool)
    requires Attributed(fs, names, wanted, owners, complete) && Pid(name).None?
    ensures Attributed(fs, names + [name], wanted, owners, complete)
  {
    var more := names + [name];
    assert forall x :: x in more <==> x in names || x == name;
    forall k | k in owners
      ensures HasOwner(fs, more, k, owners[k])
      ensures complete ==> HasFirst(fs, more, k, owners[k])
    {
      StillOwns(fs, names, name, k, owners[k]);
    }
  }

  lemma StillOwns(fs: Snapshot, names: seq<string>, name: string, k: nat, pid: nat)
    ensures HasOwner(fs, names, k, pid) ==> HasOwner(fs, names + [name], k, pid)
    ensures HasFirst(fs, names, k, pid) ==> HasFirst(fs, names + [name], k, pid)
  {
    if j :| Owns(fs, names, j, k, pid) {
      assert Owns(fs, names + [name], j, k, pid);
    }
    if j :| FirstOwns(fs, names, j, k, pid) {
      assert FirstOwns(fs, names + [name], j, k, pid);
    }
  }

  lemma ProcessAdds(
    fs: Snapshot, names: seq<string>, name: string, wanted: set<nat>, owners: map<nat, nat>, complete: bool,
    owners': map<nat, nat>, read: bool)
    requires Attributed(fs, names, wanted, owners, complete) && Pid(name).Some?
    requires read <==> Readable(fs, name)
    requires forall k :: k in owners ==> k in owners' && owners'[k] == owners[k]
    requires forall k :: k in owners' && k !in owners ==> k in wanted && owners'[k] == Pid(name).value && LinksTo(fs, name, k)
    requires read ==> forall k :: k in wanted && LinksTo(fs, name, k) ==> k in owners'
    ensures Attributed(fs, names + [name], wanted, owners', complete && read)
  {
    var more := names + [name];
    assert forall x :: x in more <==> x in names || x == name;
    forall k | k in owners'
      ensures HasOwner(fs, more, k, owners'[k])
      ensures complete ==> HasFirst(fs, more, k, owners'[k])
    {
      if k in owners {
        StillOwns(fs, names, name, k, owners[k]);
      } else {
        assert Owns(fs, more, |names|, k, owners'[k]);
        if complete {
          assert FirstOwns(fs, more, |names|, k, owners'[k]);
        }
      }
    }
  }

  /** What the attribution over a readable process list is. */
  ghost predicate Sound(fs: Snapshot, pids: seq<string>, wanted: set<nat>, a: Attribution)
  {
    var names := StableSort(Less, pids);
    && (a.complete <==> |pids| <= MAX_PROCESS_COUNT && forall name :: name in pids && Pid(name).Some? ==> Readable(fs, name))
    && (forall k :: k in a.owners ==> k in wanted && HasOwner(fs, names, k, a.owners[k]))
    && (a.complete ==> Attributed(fs, names, wanted, a.owners, true))
  }

  lemma PrefixOwns(fs: Snapshot, names: seq<string>, n: nat, wanted: set<nat>, owners: map<nat, nat>, complete: bool)
    requires n <= |names| && Attributed(fs, names[..n], wanted, owners, complete)
    ensures forall k :: k in owners ==> k in wanted && HasOwner(fs, names, k, owners[k])
  {
    forall k | k in owners
      ensures HasOwner(fs, names, k, owners[k])
    {
      var j :| Owns(fs, names[..n], j, k, owners[k]);
      assert Owns(fs, names, j, k, owners[k]);
    }
  }

  /**
   * attributeWithProcFS. Every owner has a readable link to the wanted socket it owns; when the result is
   * complete, a wanted socket that some process links is owned by the first such process in name order.
   */
  method Attribute(fs: Option<Snapshot>, listeners: seq<Listener>) returns (a: Attribution)
    ensures listeners == [] || fs.None? ==> a == Attribution(map[], fs.Some?)
    ensures listeners != [] && fs.Some? && fs.value.names.None? ==> a == Attribution(map[], false)
    ensures listeners != [] && fs.Some? && fs.value.names.Some? ==>
              Sound(fs.value, fs.value.names.value, Wanted(listeners), a)
  {
    if fs.None? || |listeners| == 0 {
      return Attribution(map[], fs.Some?);
    }
    var wanted := CollectWanted(listeners);
    if fs.value.names.None? {
      return Attribution(map[], false);
    }
    a := AttributeAmong(fs.value, fs.value.names.value, wanted);
  }

  method AttributeAmong(fs: Snapshot, pids: seq<string>, wanted: set<nat>) returns (a: Attribution)
    ensures Sound(fs, pids, wanted, a)
  {
    var names := SortNames(pids);
    var complete := true;
    if |names| > MAX_PROCESS_COUNT {
      complete := false;
      names := names[..MAX_PROCESS_COUNT];
    }
    var scanned;
    a, scanned := ScanProcesses(fs, names, wanted);
    assert StableSort(Less, pids)[..|names|] == names;
    PrefixOwns(fs, StableSort(Less, pids), |names|, wanted, a.owners, scanned);
    a := a.(complete := complete && scanned);
  }

  method SortNames(pids: seq<string>) returns (names: seq<string>)
    ensures names == StableSort(Less, pids) && |names| == |pids| && forall name :: name in names <==> name in pids
  {
    StringsTotal(pids);
    names := SortSlice(Less, pids);
  }

  method ScanProcesses(fs: Snapshot, pids: seq<string>, wanted: set<nat>) returns (a: Attribution, complete: bool)
    requires |pids| <= MAX_PROCESS_COUNT
    ensures Attributed(fs, pids, wanted, a.owners, complete)
  {
    var owners: map<nat, nat> := map[];
    var seen := 0;
    complete := true;
    for i := 0 to |pids|
      invariant seen <= i
      invariant Attributed(fs, pids[..i], wanted, owners, complete)
    {
      var name := pids[i];
      assert pids[..i + 1] == pids[..i] + [name];
      if Pid(name).None? || seen >= MAX_PROCESS_COUNT {
        NotAProcess(fs, pids[..i], name, wanted, owners, complete);
        continue;
      }
      seen := seen + 1;
      var owners', read := ScanProcess(fs, name, wanted, owners);
      ProcessAdds(fs, pids[..i], name, wanted, owners, complete, owners', read);
      owners, complete := owners', complete && read;
    }
    assert pids[..|pids|] == pids;
    a := Attribution(owners, complete);
  }

  method CollectWanted(listeners: seq<Listener>) returns (wanted: set<nat>)
    ensures wanted == Wanted(listeners)
  {
    wanted := {};
    for i := 0 to |listeners|
      invariant wanted == Wanted(listeners[..i])
    {
      assert listeners[..i + 1] == listeners[..i] + [listeners[i]];
      if listeners[i].inode != 0 {
        wanted := wanted + {listeners[i].inode};
      }
    }
    assert listeners[..|listeners|] == listeners;
  }

  /** In a complete attribution the owner of a socket is decided: two runs over one snapshot cannot differ. */
  lemma CompleteOwnersAgree(fs: Snapshot, names: seq<string>, wanted: set<nat>, a: map<nat, nat>, b: map<nat, nat>)
    requires Attributed(fs, names, wanted, a, true) && Attributed(fs, names, wanted, b, true)
    ensures a == b
  {
    forall k | k in a
      ensures k in b && a[k] == b[k]
    {
      OwnerAgrees(fs, names, wanted, a, b, k);
    }
    forall k | k in b
      ensures k in a
    {
      OwnerAgrees(fs, names, wanted, b, a, k);
    }
  }

  lemma OwnerAgrees(fs: Snapshot, names: seq<string>, wanted: set<nat>, a: map<nat, nat>, b: map<nat, nat>, k: nat)
    requires Attributed(fs, names, wanted, a, true) && Attributed(fs, names, wanted, b, true) && k in a
    ensures k in b && a[k] == b[k]
  {
    var i :| FirstOwns(fs, names, i, k, a[k]);
    assert k in wanted && LinksTo(fs, names[i], k);
    OneFirst(fs, names, k, a[k], b[k]);
  }

  lemma OneFirst(fs: Snapshot, names: seq<string>, k: nat, p: nat, q: nat)
    requires HasFirst(fs, names, k, p) && HasFirst(fs, names, k, q)
    ensures p == q
  {
    var i :| FirstOwns(fs, names, i, k, p);
    var j :| FirstOwns(fs, names, j, k, q);
    assert !(i < j) && !(j < i);
  }
}
