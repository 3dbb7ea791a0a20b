/** The operations of src/fserve.c on the cache of file-handle nodes, in place. */
module FhServer {
  import opened FhCache
  import opened Wrappers

  class FhNode {
    var key: Key                 // finfo.mount, finfo.flags
    var override: Option<string>
    var refcount: int
    var clients: Option<set<Client>>
    var f: Handle
    var format: Option<Format>
    var expire: int

    ghost function Value(): Node
      reads this
    {
      Node(key, override, refcount, clients, f, format, expire)
    }

    constructor (node: Node)
      ensures Value() == node
    {
      key, override, refcount, clients := node.key, node.override, node.refcount, node.clients;
      f, format, expire := node.f, node.format, node.expire;
    }

    /** fh_add_client */
    method AddClient(c: Client)
      modifies this`clients, this`refcount
      ensures Value() == WithClient(old(Value()), c)
    {
      if clients == None {
        return;
      }
      clients := Some(clients.value + {c});
      refcount := refcount + 1;
    }

    /** remove_from_fh, and whether the node is to be freed */
    method RemoveClient(c: Client, now: int) returns (free: bool)
      modifies this`clients, this`refcount, this`expire
      ensures Value() == WithoutClient(old(Value()), c, now) && free == FreedWithout(old(Value()), c)
    {
      refcount := refcount - 1;
      if clients != None {
        clients := Some(clients.value - {c});
      }
      free := false;
      if refcount == 0 && key.mount != None {
        if !key.flags.fallback {
          if key.flags.delete {
            return true;
          }
          expire := now + 120;
        }
      }
    }

    /** The part of fserve_set_override that leaves the node to its clients. */
    method Unfile(dest: string)
      modifies this`key, this`override, this`f, this`format
      ensures Value() == Unfiled(old(Value()), dest)
    {
      key := key.(flags := key.flags.(delete := true));
      key := key.(flags := key.flags.(fallback := false));
      format, f, override := None, -1, Some(dest);
    }
  }

  /** The name that find_fh looks for, which may come with a prefix. */
  function SoughtKey(mount: string, flags: Flags): Key {
    if "fallback-" <= mount then Key(Some(mount[9..]), flags.(fallback := true))
    else if "file-" <= mount then Key(Some(mount[5..]), flags)
    else Key(Some(mount), flags)
  }

  /** A name after "fallback-" is sought among the fallbacks, one after "file-", or any other, as it is. */
  lemma SoughtIs(name: string, flags: Flags)
    ensures SoughtKey("fallback-" + name, flags) == Key(Some(name), flags.(fallback := true))
    ensures SoughtKey("file-" + name, flags) == Key(Some(name), flags)
    ensures !("fallback-" <= name) && !("file-" <= name) ==> SoughtKey(name, flags) == Key(Some(name), flags)
  {
    assert ("fallback-" + name)[9..] == name && ("file-" + name)[5..] == name;
    assert ("file-" + name)[1] == 'i';
  }

  /** What is found on disk for a name: -1 for a file or plugin that cannot be had. */
  datatype Disk = Disk(mismatch: bool, f: Handle, plugin: bool, format: Format)

  function AfterOne(s: State, n: Id, now: int): State
    requires n in s.nodes
  {
    var t := Scanned(s, n, now);
    if now != 0 && Expired(s.nodes[n], now) then Deleted(t, n) else t
  }

  /** What is left in the cache. */
  function Survivors(s: State, now: int): set<Id>
    requires s.cache <= s.nodes.Keys
  {
    set n | n in s.cache && (now == 0 || !Expired(s.nodes[n], now))
  }

  function AfterScan(node: Node, now: int): Node {
    if now == 0 then node.(expire := 0) else node
  }

  /** The scan that began with `s` has come to `t` and has the nodes in `rest` to do. */
  ghost predicate ScannedSoFar(s: State, t: State, rest: set<Id>, now: int) {
    && t.held == s.held && s.held !! s.cache && t.refs == s.refs && t.doomed == s.doomed
    && t.cache <= s.cache <= s.nodes.Keys && t.cache <= t.nodes.Keys && rest <= t.cache
    && t.cache == Survivors(s, now) + rest
    && t.freed == s.freed + (s.cache - t.cache)
    && forall n :: n in t.cache ==>
         n in s.nodes && t.nodes[n] == if n in rest then s.nodes[n] else AfterScan(s.nodes[n], now)
  }

  lemma NotScannedYet(s: State, now: int)
    requires CacheOk(s) && s.held !! s.cache
    ensures ScannedSoFar(s, s, s.cache, now)
  {
  }

  lemma OneScanned(s: State, t: State, rest: set<Id>, n: Id, now: int)
    requires CacheOk(t) && ScannedSoFar(s, t, rest, now) && n in rest && now >= 0
    ensures n in t.nodes && Enabled(t, Scan(n, now)) && ScannedSoFar(s, AfterOne(t, n, now), rest - {n}, now)
  {
    Known(t);
    hide CacheOk;
  }

  lemma ScannedIsDoomed(s: State, n: Id, now: int)
    requires CacheOk(s) && Enabled(s, Scan(n, now)) && now != 0 && Expired(s.nodes[n], now)
    ensures CacheOk(Scanned(s, n, now)) && Enabled(Scanned(s, n, now), Delete(n)) && n !in s.doomed
  {
    StepKeeps(s, Scan(n, now));
  }

  lemma CreateIsNew(s: State, n: Id, key: Key, f: Handle, format: Format)
    requires CacheOk(s) && Enabled(s, Create(n, key, f, format))
    ensures n !in s.nodes
  {
  }

  lemma OverrideIsNew(s: State, n: Id, copy: Id, dest: string)
    requires CacheOk(s) && Enabled(s, Override(n, copy, dest))
    ensures copy !in s.nodes
  {
  }

  class FileCache {
    var memory: map<Id, FhNode>
    var tree: set<Id>            // fh_cache

    ghost var held: set<Id>
    ghost var refs: set<(Client, Id)>
    ghost var doomed: set<Id>
    ghost var freed: set<Id>
    ghost var openFiles: set<Handle>
    ghost var formats: set<Format>

    ghost function Now(): State
      reads this, memory.Values
    {
      State(map n | n in memory :: memory[n].Value(), tree, held, refs, doomed, freed, openFiles, formats)
    }

    /** Different nodes are at different places. */
    ghost predicate Valid()
      reads this, memory.Values
    {
      && CacheOk(Now())
      && forall n, m :: n in memory && m in memory && n != m ==> memory[n] != memory[m]
    }

    /** fserve_initialize */
    constructor ()
      ensures Valid() && Now() == Initial()
    {
      var noFile := new FhNode(Node(Key(None, NO_FLAGS), None, 1, Some({}), -1, None, -1));
      memory, tree := map[NO_FILE := noFile], {NO_FILE};
      held, refs, doomed, freed, openFiles, formats := {}, {}, {}, {}, {}, {};
      new;
      InitialOk();
      assert Now().nodes == Initial().nodes;
    }

    /** avl_get_by_key */
    method GetByKey(key: Key) returns (r: Option<Id>)
      requires Valid()
      ensures r == None <==> forall n :: n in tree ==> Now().nodes[n].key != key
      ensures r != None ==> r.value in tree && Now().nodes[r.value].key == key
    {
      forall n | n in tree
        ensures n in memory && (CompareFh(memory[n].key, key) == 0 <==> Now().nodes[n].key == key)
      {
        assert n in Now().nodes;
        CompareIsOrder(memory[n].key, key, key);
      }
      if n :| n in tree && CompareFh(memory[n].key, key) == 0 {
        r := Some(n);
      } else {
        r := None;
      }
    }

    /** find_fh */
    method FindFh(mount: Option<string>, flags: Flags) returns (r: Option<Id>)
      requires Valid()
      ensures
        r == None <==>
          mount == None || forall n :: n in tree ==> Now().nodes[n].key != SoughtKey(mount.value, flags)
      ensures r != None ==> r.value in tree && Now().nodes[r.value].key == SoughtKey(mount.value, flags)
    {
      if mount == None {
        return None;
      }
      r := GetByKey(SoughtKey(mount.value, flags));
    }

    /** What becomes of the nodes when only the one at `n` is written to. */
    lemma OneChanged(nodes: map<Id, Node>, n: Id, node: Node)
      requires n in nodes && memory.Keys == nodes.Keys && memory[n].Value() == node
      requires forall m :: m in nodes && m != n ==> memory[m].Value() == nodes[m]
      ensures Now().nodes == nodes[n := node]
    {
    }

    /** fh_add_client with the client's pointer, then the unlock */
    method Attach(n: Id, c: Client)
      requires Valid() && n in memory && Enabled(Now(), Event.Attach(n, c))
      modifies this`held, this`refs, memory[n]
      ensures Valid() && Now() == Attached(old(Now()), n, c)
    {
      hide CacheOk, Enabled;
      ghost var s := Now();
      StepKeeps(s, Event.Attach(n, c));
      memory[n].AddClient(c);
      refs, held := refs + {(c, n)}, held - {n};
      OneChanged(s.nodes, n, WithClient(s.nodes[n], c));
    }

    /** remove_from_fh, up to the unlock: a node that is to be freed is known to nobody else */
    method RemoveFromFh(n: Id, c: Client, now: int) returns (free: bool)
      requires Valid() && n in memory && Enabled(Now(), Detach(n, c, now))
      modifies this`refs, this`doomed, memory[n]
      ensures Valid() && Now() == Detached(old(Now()), n, c, now)
      ensures free == FreedWithout(old(Now()).nodes[n], c)
    {
      hide CacheOk, Enabled, FreedWithout, WithoutClient;
      ghost var s := Now();
      StepKeeps(s, Detach(n, c, now));
      free := memory[n].RemoveClient(c, now);
      refs := refs - {(c, n)};
      if free {
        doomed := doomed + {n};
      }
      OneChanged(s.nodes, n, WithoutClient(s.nodes[n], c, now));
    }

    /** Names are compared with NULL as the empty one. */
    ghost predicate IsCached(key: Key)
      requires CacheOk(Now())
      reads this, memory.Values
    {
      exists m :: m in tree && Now().nodes[m].key == key
    }

    method MakeNode(key: Key, disk: Disk) returns (fh: FhNode)
      ensures fresh(fh) && fh.Value() == Opened(key, disk.f, disk.format)
    {
      var name := NameOf(key);
      fh := new FhNode(Node(Key(Some(name), key.flags), None, 0, None, 0, None, 0));  // calloc
      if name != "" {
        if key.flags.fallback {
          fh.expire := -1;
        }
        fh.f, fh.format := disk.f, Some(disk.format);
      }
      fh.clients := Some({});
    }

    method AddNode(n: Id, fh: FhNode, ghost nodes: map<Id, Node>)
      requires memory.Keys == nodes.Keys && (forall m :: m in memory ==> memory[m].Value() == nodes[m])
      requires forall m :: m in memory ==> memory[m] != fh
      requires n !in memory && forall m, k :: m in memory && k in memory && m != k ==> memory[m] != memory[k]
      modifies this`memory
      ensures Now().nodes == nodes[n := fh.Value()] && memory == old(memory)[n := fh]
      ensures forall m, k :: m in memory && k in memory && m != k ==> memory[m] != memory[k]
    {
      memory := memory[n := fh];
    }

    method NewNode(n: Id, key: Key, disk: Disk)
      requires Valid() && Enabled(Now(), Create(n, key, disk.f, disk.format))
      modifies this`memory, this`tree, this`held, this`openFiles, this`formats
      ensures Valid() && Now() == Created(old(Now()), n, key, disk.f, disk.format)
    {
      hide CacheOk, Enabled, Opened;
      ghost var s := Now();
      CreateIsNew(s, n, key, disk.f, disk.format);
      StepKeeps(s, Create(n, key, disk.f, disk.format));
      var fh := MakeNode(key, disk);
      tree := tree + {n};
      held := held + {n};
      if NameOf(key) != "" {
        openFiles, formats := openFiles + {disk.f}, formats + {disk.format};
      }
      AddNode(n, fh, s.nodes);
    }

    /** open_fh: `n` is where a new node goes */
    method OpenFh(key: Key, disk: Disk, n: Id) returns (r: Option<Id>)
      requires Valid() && New(Now(), n) && !key.flags.delete
      requires disk.f >= -1 && disk.f !in openFiles && disk.format !in formats
      requires forall m :: m in tree && Now().nodes[m].key == Key(Some(NameOf(key)), key.flags) ==> m !in held
      modifies this`memory, this`tree, this`held, this`openFiles, this`formats
      ensures Valid() && (r == None ==> Now() == old(Now()))
      ensures
        r != None ==>
          if old(IsCached(Key(Some(NameOf(key)), key.flags))) then
            && r.value in old(tree) && old(Now()).nodes[r.value].key == Key(Some(NameOf(key)), key.flags)
            && Now() == old(Now()).(held := old(held) + {r.value})
          else r.value == n && Now() == Created(old(Now()), n, key, disk.f, disk.format)
      ensures
        r == None <==>
          if old(IsCached(Key(Some(NameOf(key)), key.flags))) then key.flags.fallback && disk.mismatch
          else NameOf(key) != "" && ((key.flags.fallback && disk.mismatch) || disk.f < 0 || !disk.plugin)
    {
      hide CacheOk;
      var name := NameOf(key);
      r := GetByKey(Key(Some(name), key.flags));
      if r != None {
        if key.flags.fallback && disk.mismatch {
          return None;
        }
        ghost var s := Now();
        StepKeeps(s, Find(r.value));
        held := held + {r.value};
        assert Now().nodes == s.nodes;
        return;
      }
      if name != "" && ((key.flags.fallback && disk.mismatch) || disk.f < 0 || !disk.plugin) {
        return None;
      }
      NewNode(n, key, disk);
      r := Some(n);
    }

    method Replace(n: Id, copy: Id, dest: string)
      requires Valid() && n in memory && Enabled(Now(), Override(n, copy, dest))
      modifies this`memory, this`tree, memory[n]
      ensures Valid() && Now() == Overridden(old(Now()), n, copy, dest)
    {
      hide CacheOk, Enabled, Unfiled;
      ghost var s := Now();
      StepKeeps(s, Override(n, copy, dest));
      OverrideIsNew(s, n, copy, dest);
      var result := memory[n];
      if result.refcount > 0 {
        tree := tree - {n};
        var clean := new FhNode(Node(result.key, result.override, 0, Some({}), result.f, result.format, -1));
        tree := tree + {copy};
        result.Unfile(dest);
        ghost var left := s.nodes[n := Unfiled(s.nodes[n], dest)];
        OneChanged(s.nodes, n, Unfiled(s.nodes[n], dest));
        AddNode(copy, clean, left);
      }
    }

    /** fserve_set_override: `copy` is where the copy goes */
    method SetOverride(mount: string, dest: string, copy: Id) returns (found: bool)
      requires Valid() && New(Now(), copy)
      requires
        forall m :: m in tree && Now().nodes[m].key == SoughtKey(mount, NO_FLAGS.(fallback := true)) ==> m !in held
      modifies this`memory, this`tree, memory.Values
      ensures Valid() && found == old(IsCached(SoughtKey(mount, NO_FLAGS.(fallback := true))))
      ensures
        if found then
          exists m :: m in old(tree) && old(Now()).nodes[m].key == SoughtKey(mount, NO_FLAGS.(fallback := true))
                      && Now() == Overridden(old(Now()), m, copy, dest)
        else Now() == old(Now())
    {
      hide CacheOk;
      var r := FindFh(Some(mount), NO_FLAGS.(fallback := true));
      if r == None {
        return false;
      }
      found := true;
      Known(Now());
      assert r.value in Now().nodes && r.value in memory && memory[r.value] in memory.Values;
      Replace(r.value, copy, dest);
    }

    /** fserve_scan at one node; whether it is out of the cache, to be freed */
    method ScanNode(n: Id, now: int) returns (free: bool)
      requires Valid() && n in memory && Enabled(Now(), Scan(n, now))
      modifies this`tree, this`doomed, memory[n]
      ensures Valid() && Now() == Scanned(old(Now()), n, now)
      ensures free <==> now != 0 && Expired(old(Now()).nodes[n], now)
    {
      hide CacheOk, Enabled;
      ghost var s := Now();
      StepKeeps(s, Scan(n, now));
      var fh := memory[n];
      free := false;
      if now == 0 {
        fh.expire := 0;
        OneChanged(s.nodes, n, s.nodes[n].(expire := 0));
        return;
      }
      if fh.refcount == 0 && fh.expire >= 0 && now >= fh.expire {
        tree := tree - {n};
        doomed := doomed + {n};
        free := true;
      }
      assert Now().nodes == s.nodes;
    }

    /** _delete_fh */
    method DeleteFh(n: Id)
      requires Valid() && n in memory && Enabled(Now(), Delete(n))
      modifies this`memory, this`doomed, this`freed, this`openFiles, this`formats
      ensures Valid() && Now() == Deleted(old(Now()), n) && memory == old(memory) - {n}
    {
      hide CacheOk, Enabled;
      ghost var s := Now();
      StepKeeps(s, Delete(n));
      openFiles := if memory[n].f != -1 then openFiles - {memory[n].f} else openFiles;
      formats := if memory[n].format != None then formats - {memory[n].format.value} else formats;
      memory := memory - {n};
      doomed, freed := doomed - {n}, freed + {n};
      assert Now().nodes == s.nodes - {n};
    }

    method ScanOne(n: Id, now: int)
      requires Valid() && n in memory && Enabled(Now(), Scan(n, now))
      modifies this, memory[n]
      ensures Valid() && Now() == AfterOne(old(Now()), n, now)
      ensures forall m :: m in memory ==> m in old(memory) && memory[m] == old(memory[m])
    {
      hide CacheOk, Enabled;
      ghost var s := Now();
      var free := ScanNode(n, now);
      if free {
        ScannedIsDoomed(s, n, now);
        DeleteFh(n);
      }
    }

    /** fserve_scan: what has expired goes from the cache and is freed; with a time of 0 all is made to expire. */
    method FserveScan(now: int)
      requires Valid() && held !! tree && now >= 0
      modifies this, memory.Values
      ensures Valid() && ScannedSoFar(old(Now()), Now(), {}, now)
    {
      hide CacheOk, ScannedSoFar, AfterOne;
      ghost var s := Now();
      var rest := tree;
      NotScannedYet(s, now);
      while rest != {}
        invariant Valid() && ScannedSoFar(s, Now(), rest, now)
        invariant forall n :: n in memory ==> n in old(memory) && memory[n] == old(memory[n])
        decreases |rest|
      {
        var n :| n in rest;
        OneScanned(s, Now(), rest, n, now);
        assert memory[n] in old(memory.Values);
        ScanOne(n, now);
        rest := rest - {n};
      }
    }
  }
}
