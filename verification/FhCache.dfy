/**
 The file-handle cache of src/fserve.c: nodes shared by the clients that are sent a file,
 found by name and flags, that expire when unused, and that are detached with their clients
 while a copy takes over the file. Each section under a lock is one step; a node that is
 locked from one step to the next is `held`.
 */
module FhCache {
  import opened Wrappers

  type Client = nat
  type Handle = int   // -1 for none
  type Format = nat

  /** The bits of fbinfo.flags. */
  datatype Flags = Flags(
    useAdmin: bool,
    delete: bool,
    fallback: bool,
    fallbackEof: bool,
    overridden: bool,
    missing: bool)
  {
    function Value(): int {
      (if useAdmin then 1 else 0) + (if delete then 2 else 0) + (if fallback then 4 else 0)
        + (if fallbackEof then 8 else 0) + (if overridden then 16 else 0) + (if missing then 32 else 0)
    }
  }

  const NO_FLAGS: Flags := Flags(false, false, false, false, false, false)

  datatype Key = Key(mount: Option<string>, flags: Flags)

  datatype Node = Node(
    key: Key,
    override: Option<string>,
    refcount: int,
    clients: Option<set<Client>>,
    f: Handle,
    format: Option<Format>,
    expire: int)

  /** What a node is known by while it is allocated. */
  type Id = nat

  const NO_FILE: Id := 0

  datatype State = State(
    nodes: map<Id, Node>,
    cache: set<Id>,
    held: set<Id>,
    refs: set<(Client, Id)>,   // client->shared_data
    doomed: set<Id>,           // about to be freed by the one thread that still knows them
    freed: set<Id>,
    openFiles: set<Handle>,       // file handles opened and not closed
    formats: set<Format>)      // format plugins allocated and not freed

  function ClientsOf(s: State, n: Id): set<Client> {
    set r <- s.refs | r.1 == n :: r.0
  }

  // -------------------------------------------------------------------- what always holds

  /** For a node with a client set, the count is of its clients; no_file has one more. */
  ghost predicate CountOk(s: State, n: Id)
    requires n in s.nodes
  {
    var node := s.nodes[n];
    && (node.clients != None ==>
          node.clients.value == ClientsOf(s, n)
          && node.refcount == |node.clients.value| + (if n == NO_FILE then 1 else 0))
    && (node.clients == None ==>
          n !in s.cache && node.refcount == (if n in s.doomed then 0 else 1)
          && forall c, d :: (c, n) in s.refs && (d, n) in s.refs ==> c == d)
    && (node.key.mount == None <==> n == NO_FILE)
  }

  /**
   Outside the cache is a node that is about to be freed, or that was detached from its
   name and file with clients on it, or that was made for one client only.
   */
  ghost predicate PlaceOk(s: State, n: Id)
    requires n in s.nodes
  {
    var node := s.nodes[n];
    && (n in s.cache ==> !node.key.flags.delete && n !in s.doomed)
    && (n in s.doomed ==> node.refcount == 0 && n !in s.held && forall c :: (c, n) !in s.refs)
    && (n !in s.cache && n !in s.doomed ==>
          node.key.flags.delete && !node.key.flags.fallback && node.refcount > 0 && node.f == -1 && node.format == None)
  }

  ghost predicate CacheOk(s: State) {
    && NO_FILE in s.nodes && s.nodes[NO_FILE].clients != None && NO_FILE in s.cache
    && s.cache <= s.nodes.Keys && s.held <= s.nodes.Keys && s.doomed <= s.nodes.Keys
    && s.freed !! s.nodes.Keys
    && (forall r :: r in s.refs ==> r.1 in s.nodes)
    && (forall n :: n in s.nodes ==> CountOk(s, n) && PlaceOk(s, n))
    && (forall n, m :: n in s.cache && m in s.cache && s.nodes[n].key == s.nodes[m].key ==> n == m)
  }

  /** Each of them belongs to exactly one owner. */
  ghost predicate OwnedOnce<T>(owners: map<Id, T>, all: set<T>) {
    && (forall n :: n in owners ==> owners[n] in all)
    && (forall h :: h in all ==> exists n :: n in owners && owners[n] == h)
    && (forall n, m :: n in owners && m in owners && n != m ==> owners[n] != owners[m])
  }

  ghost function Files(nodes: map<Id, Node>): map<Id, Handle> {
    map n | n in nodes && nodes[n].f != -1 :: nodes[n].f
  }

  ghost function Formats(nodes: map<Id, Node>): map<Id, Format> {
    map n | n in nodes && nodes[n].format != None :: nodes[n].format.value
  }

  /** Every open file and every format belongs to exactly one node, and a node has only such. */
  ghost predicate HandlesOk(s: State) {
    OwnedOnce(Files(s.nodes), s.openFiles) && OwnedOnce(Formats(s.nodes), s.formats)
  }

  // -------------------------------------------------------------------- what each step does

  /** A node gains a client; one without a client set is for its one client already. */
  function WithClient(node: Node, c: Client): Node {
    if node.clients == None then node
    else node.(clients := Some(node.clients.value + {c}), refcount := node.refcount + 1)
  }

  function Fewer(node: Node, c: Client): Node {
    node.(refcount := node.refcount - 1,
          clients := if node.clients == None then None else Some(node.clients.value - {c}))
  }

  /** A node loses a client; one of a name that nobody uses any more expires, unless it is a fallback or to be freed. */
  function WithoutClient(node: Node, c: Client, now: int): Node {
    var less := Fewer(node, c);
    if less.refcount == 0 && less.key.mount != None && !less.key.flags.fallback && !less.key.flags.delete then
      less.(expire := now + 120)
    else less
  }

  /** Nobody uses a node that is out of the cache: it is freed. */
  predicate FreedWithout(node: Node, c: Client) {
    var less := Fewer(node, c);
    less.refcount == 0 && less.key.mount != None && !less.key.flags.fallback && less.key.flags.delete
  }

  /** A node that clients of an overridden file are left on. */
  function Unfiled(node: Node, dest: string): Node {
    node.(key := Key(node.key.mount, node.key.flags.(delete := true, fallback := false)),
          override := Some(dest), f := -1, format := None)
  }

  /** Its copy, which takes over the file. */
  function Copied(node: Node): Node {
    Node(node.key, node.override, 0, Some({}), node.f, node.format, -1)
  }

  predicate Expired(node: Node, now: int) {
    node.refcount == 0 && node.expire >= 0 && now >= node.expire
  }

  function Updated(s: State, n: Id, node: Node): State {
    s.(nodes := s.nodes[n := node])
  }

  function Unlocked(s: State, n: Id): State {
    s.(held := s.held - {n})
  }

  function NameOf(key: Key): string {
    match key.mount case None => "" case Some(m) => m
  }

  /** The node that open_fh makes; without a name it has no file opened, but the zero that calloc left. */
  function Opened(key: Key, f: Handle, format: Format): Node {
    var named := NameOf(key) != "";
    Node(Key(Some(NameOf(key)), key.flags), None, 0, Some({}), if named then f else 0,
         if named then Some(format) else None, if named && key.flags.fallback then -1 else 0)
  }

  /** The end of open_fh */
  function Created(s: State, n: Id, key: Key, f: Handle, format: Format): State {
    var named := NameOf(key) != "";
    s.(nodes := s.nodes[n := Opened(key, f, format)], cache := s.cache + {n}, held := s.held + {n},
       openFiles := if named then s.openFiles + {f} else s.openFiles,
       formats := if named then s.formats + {format} else s.formats)
  }

  /** The node of fserve_setup_client_fb for a response to a client that was authenticated. */
  function Temporary(s: State, n: Id, mount: string): State {
    var node := Node(Key(Some(mount), NO_FLAGS.(delete := true)), None, 1, None, -1, None, 0);
    s.(nodes := s.nodes[n := node], held := s.held + {n})
  }

  /** fh_add_client, and the client's pointer */
  function Attached(s: State, n: Id, c: Client): State
    requires n in s.nodes
  {
    Unlocked(Updated(s, n, WithClient(s.nodes[n], c)).(refs := s.refs + {(c, n)}), n)
  }

  /** remove_from_fh, up to where it unlocks the node */
  function Detached(s: State, n: Id, c: Client, now: int): State
    requires n in s.nodes
  {
    Updated(s, n, WithoutClient(s.nodes[n], c, now)).(refs := s.refs - {(c, n)},
      doomed := if FreedWithout(s.nodes[n], c) then s.doomed + {n} else s.doomed)
  }

  /** fserve_set_override on the node found: a copy without clients takes its place, file and format. */
  function Overridden(s: State, n: Id, copy: Id, dest: string): State
    requires n in s.nodes
  {
    if s.nodes[n].refcount <= 0 then s
    else
      s.(nodes := s.nodes[n := Unfiled(s.nodes[n], dest)][copy := Copied(s.nodes[n])],
         cache := s.cache - {n} + {copy})
  }

  /** fserve_scan at one node; a time of 0 is used to make all expire */
  function Scanned(s: State, n: Id, now: int): State
    requires n in s.nodes
  {
    if now == 0 then Updated(s, n, s.nodes[n].(expire := 0))
    else if Expired(s.nodes[n], now) then s.(cache := s.cache - {n}, doomed := s.doomed + {n})
    else s
  }

  /** fserve_query_count after open_fh */
  function Queried(s: State, n: Id, now: int): State
    requires n in s.nodes
  {
    var node := s.nodes[n];
    Unlocked(if node.refcount == 0 then Updated(s, n, node.(expire := now + 20)) else s, n)
  }

  /** _delete_fh */
  function Deleted(s: State, n: Id): State
    requires n in s.nodes
  {
    var node := s.nodes[n];
    s.(nodes := s.nodes - {n}, doomed := s.doomed - {n}, freed := s.freed + {n},
       openFiles := if node.f != -1 then s.openFiles - {node.f} else s.openFiles,
       formats := if node.format != None then s.formats - {node.format.value} else s.formats)
  }

  // -------------------------------------------------------------------- runs

  datatype Event =
    | Find(n: Id)                                         // a cached node is found and locked
    | Create(n: Id, key: Key, f: Handle, format: Format)  // open_fh makes one, locked
    | Make(n: Id, mount: string)
    | Attach(n: Id, c: Client)
    | Abandon(n: Id)                                      // refused: unlocked without attaching
    | Query(n: Id, now: int)
    | Detach(n: Id, c: Client, now: int)
    | Override(n: Id, copy: Id, dest: string)
    | Scan(n: Id, now: int)
    | Delete(n: Id)

  ghost predicate New(s: State, n: Id) {
    n !in s.nodes && n !in s.freed
  }

  /** Names in the cache are compared as open_fh compares them; callers never ask for FS_DELETE. */
  ghost predicate Enabled(s: State, e: Event)
    requires CacheOk(s)
  {
    match e
    case Find(n) => n in s.cache && n !in s.held
    case Create(n, key, f, format) =>
      && New(s, n) && !key.flags.delete
      && (NameOf(key) != "" ==> f >= 0 && f !in s.openFiles && format !in s.formats)
      && forall m :: m in s.cache ==> s.nodes[m].key != Key(Some(NameOf(key)), key.flags)
    case Make(n, _) => New(s, n)
    case Attach(n, c) => n in s.held && (c, n) !in s.refs && (s.nodes[n].clients == None ==> ClientsOf(s, n) == {})
    case Abandon(n) => n in s.held
    case Query(n, now) => n in s.held && now > 0
    case Detach(n, c, now) => (c, n) in s.refs && n !in s.held && now > 0
    case Override(n, copy, _) =>
      n in s.cache && n !in s.held && s.nodes[n].key.flags.fallback && s.nodes[n].key.mount != None && New(s, copy)
    case Scan(n, now) => n in s.cache && n !in s.held && now >= 0
    case Delete(n) => n in s.doomed
  }

  function Next(s: State, e: Event): State
    requires CacheOk(s) && Enabled(s, e)
  {
    match e
    case Find(n) => s.(held := s.held + {n})
    case Create(n, key, f, format) => Created(s, n, key, f, format)
    case Make(n, mount) => Temporary(s, n, mount)
    case Attach(n, c) => Attached(s, n, c)
    case Abandon(n) => Unlocked(s, n)
    case Query(n, now) => Queried(s, n, now)
    case Detach(n, c, now) => Detached(s, n, c, now)
    case Override(n, copy, dest) => Overridden(s, n, copy, dest)
    case Scan(n, now) => Scanned(s, n, now)
    case Delete(n) => Deleted(s, n)
  }

  // -------------------------------------------------------------------- every step keeps what always holds

  ghost predicate SameAt(s: State, t: State, m: Id) {
    && m in s.nodes && m in t.nodes && s.nodes[m] == t.nodes[m]
    && (m in s.cache <==> m in t.cache) && (m in s.doomed <==> m in t.doomed) && (m in s.held <==> m in t.held)
    && forall c :: (c, m) in s.refs <==> (c, m) in t.refs
  }

  lemma Unaffected(s: State, t: State, m: Id)
    requires SameAt(s, t, m) && CountOk(s, m) && PlaceOk(s, m)
    ensures CountOk(t, m) && PlaceOk(t, m)
  {
    assert ClientsOf(s, m) == ClientsOf(t, m);
  }

  /** No node that stays has the key of node `m`. */
  ghost predicate KeyIsNew(s: State, t: State, changed: set<Id>, m: Id)
    requires m in t.nodes && s.cache <= s.nodes.Keys
  {
    forall k :: k in s.cache && k !in changed ==> s.nodes[k].key != t.nodes[m].key
  }

  /** A step is right if it is right for the nodes in `changed` and leaves the others alone. */
  lemma StepOk(s: State, t: State, changed: set<Id>)
    requires CacheOk(s)
    requires t.cache <= t.nodes.Keys && t.held <= t.nodes.Keys && t.doomed <= t.nodes.Keys && t.freed !! t.nodes.Keys
    requires forall r :: r in t.refs ==> r.1 in t.nodes
    requires forall m :: m in t.nodes && m !in changed ==> SameAt(s, t, m)
    requires forall m :: m in t.nodes && m in changed ==> CountOk(t, m) && PlaceOk(t, m)
    requires forall m :: m in changed && m in t.cache ==> KeyIsNew(s, t, changed, m)
    requires forall m, k :: m in changed && k in changed && m in t.cache && k in t.cache ==> m == k
    requires NO_FILE in t.nodes && t.nodes[NO_FILE].clients != None && NO_FILE in t.cache
    ensures CacheOk(t)
  {
    forall m | m in t.nodes
      ensures CountOk(t, m) && PlaceOk(t, m)
    {
      if m !in changed {
        Unaffected(s, t, m);
      }
    }
    forall m, k | m in t.cache && k in t.cache && t.nodes[m].key == t.nodes[k].key
      ensures m == k
    {
      assert m in changed ==> KeyIsNew(s, t, changed, m);
      assert k in changed ==> KeyIsNew(s, t, changed, k);
    }
  }

  lemma Known(s: State)
    requires CacheOk(s)
    ensures s.cache <= s.nodes.Keys && s.held <= s.nodes.Keys && s.doomed <= s.nodes.Keys && s.freed !! s.nodes.Keys
    ensures forall r :: r in s.refs ==> r.1 in s.nodes
  {
  }

  lemma RefsAreClients(s: State, n: Id)
    ensures forall c :: (c, n) in s.refs <==> c in ClientsOf(s, n)
  {
  }

  lemma NoClients(s: State, n: Id)
    requires forall c :: (c, n) !in s.refs
    ensures ClientsOf(s, n) == {}
  {
  }

  lemma FoundKeeps(s: State, n: Id)
    requires CacheOk(s) && n in s.cache
    ensures CacheOk(s.(held := s.held + {n}))
  {
    StepOk(s, s.(held := s.held + {n}), {n});
  }

  lemma UnlockKeeps(s: State, n: Id)
    requires CacheOk(s) && n in s.nodes
    ensures CacheOk(Unlocked(s, n))
  {
    StepOk(s, Unlocked(s, n), {n});
  }

  lemma CreatedKeeps(s: State, n: Id, key: Key, f: Handle, format: Format)
    requires CacheOk(s) && Enabled(s, Create(n, key, f, format))
    ensures CacheOk(Created(s, n, key, f, format))
  {
    NoClients(s, n);
    StepOk(s, Created(s, n, key, f, format), {n});
  }

  lemma TemporaryKeeps(s: State, n: Id, mount: string)
    requires CacheOk(s) && Enabled(s, Make(n, mount))
    ensures CacheOk(Temporary(s, n, mount))
  {
    StepOk(s, Temporary(s, n, mount), {n});
  }

  lemma AttachedNode(s: State, n: Id, c: Client)
    requires CacheOk(s) && Enabled(s, Attach(n, c))
    ensures
      var t := Attached(s, n, c);
      && CountOk(t, n) && PlaceOk(t, n) && t.nodes[n].key == s.nodes[n].key
      && (t.nodes[n].clients == None <==> s.nodes[n].clients == None)
  {
    var t := Attached(s, n, c);
    RefsAreClients(s, n);
    assert ClientsOf(t, n) == ClientsOf(s, n) + {c};
    assert c !in ClientsOf(s, n) && |ClientsOf(s, n) + {c}| == |ClientsOf(s, n)| + 1;
  }

  lemma AttachedKeeps(s: State, n: Id, c: Client)
    requires CacheOk(s) && Enabled(s, Attach(n, c))
    ensures CacheOk(Attached(s, n, c))
  {
    AttachedNode(s, n, c);
    hide CountOk, PlaceOk, WithClient;
    StepOk(s, Attached(s, n, c), {n});
  }

  lemma DetachedNode(s: State, n: Id, c: Client, now: int)
    requires CacheOk(s) && Enabled(s, Detach(n, c, now))
    ensures
      var t := Detached(s, n, c, now);
      && CountOk(t, n) && PlaceOk(t, n) && t.nodes[n].key == s.nodes[n].key
      && (t.nodes[n].clients == None <==> s.nodes[n].clients == None)
  {
    var t := Detached(s, n, c, now);
    RefsAreClients(s, n);
    RefsAreClients(t, n);
    assert ClientsOf(t, n) == ClientsOf(s, n) - {c};
    assert |ClientsOf(s, n) - {c}| == |ClientsOf(s, n)| - 1;
  }

  lemma DetachedKeeps(s: State, n: Id, c: Client, now: int)
    requires CacheOk(s) && Enabled(s, Detach(n, c, now))
    ensures CacheOk(Detached(s, n, c, now))
  {
    DetachedNode(s, n, c, now);
    hide CountOk, PlaceOk, WithoutClient, FreedWithout;
    StepOk(s, Detached(s, n, c, now), {n});
  }

  lemma OverriddenKeeps(s: State, n: Id, copy: Id, dest: string)
    requires CacheOk(s) && Enabled(s, Override(n, copy, dest))
    ensures CacheOk(Overridden(s, n, copy, dest))
  {
    var t := Overridden(s, n, copy, dest);
    if s.nodes[n].refcount > 0 {
      NoClients(s, copy);
      assert ClientsOf(t, n) == ClientsOf(s, n) && ClientsOf(t, copy) == ClientsOf(s, copy);
      StepOk(s, t, {n, copy});
    }
  }

  lemma ScannedKeeps(s: State, n: Id, now: int)
    requires CacheOk(s) && Enabled(s, Scan(n, now))
    ensures CacheOk(Scanned(s, n, now))
  {
    var t := Scanned(s, n, now);
    assert ClientsOf(t, n) == ClientsOf(s, n);
    RefsAreClients(s, n);
    StepOk(s, t, {n});
  }

  lemma QueriedKeeps(s: State, n: Id, now: int)
    requires CacheOk(s) && Enabled(s, Query(n, now))
    ensures CacheOk(Queried(s, n, now))
  {
    var t := Queried(s, n, now);
    assert ClientsOf(t, n) == ClientsOf(s, n);
    StepOk(s, t, {n});
  }

  lemma DeletedKeeps(s: State, n: Id)
    requires CacheOk(s) && Enabled(s, Delete(n))
    ensures CacheOk(Deleted(s, n))
  {
    StepOk(s, Deleted(s, n), {n});
  }

  /** A node that is locked, or that a client points to, has not been freed and is not about to be. */
  lemma HeldIsLive(s: State, n: Id)
    requires CacheOk(s) && (n in s.held || exists c :: (c, n) in s.refs)
    ensures n in s.nodes && n !in s.doomed && n !in s.freed
  {
  }

  lemma StepKeeps(s: State, e: Event)
    requires CacheOk(s) && Enabled(s, e)
    ensures CacheOk(Next(s, e))
  {
    hide CacheOk;
    match e
    case Find(n) => FoundKeeps(s, n);
    case Create(n, key, f, format) => CreatedKeeps(s, n, key, f, format);
    case Make(n, mount) => TemporaryKeeps(s, n, mount);
    case Attach(n, c) => AttachedKeeps(s, n, c);
    case Abandon(n) => HeldIsLive(s, n); UnlockKeeps(s, n);
    case Query(n, now) => QueriedKeeps(s, n, now);
    case Detach(n, c, now) => DetachedKeeps(s, n, c, now);
    case Override(n, copy, dest) => OverriddenKeeps(s, n, copy, dest);
    case Scan(n, now) => ScannedKeeps(s, n, now);
    case Delete(n) => DeletedKeeps(s, n);
  }

  ghost predicate Run(s: State, es: seq<Event>, t: State)
    decreases |es|
  {
    CacheOk(s) && if es == [] then t == s else Enabled(s, es[0]) && Run(Next(s, es[0]), es[1..], t)
  }

  ghost predicate Named(e: Event) {
    e.Create? ==> NameOf(e.key) != ""
  }

  lemma OwnMore<T>(owners: map<Id, T>, all: set<T>, n: Id, h: T)
    requires OwnedOnce(owners, all) && n !in owners && h !in all
    ensures OwnedOnce(owners[n := h], all + {h})
  {
    var after := owners[n := h];
    forall x | x in all + {h}
      ensures exists m :: m in after && after[m] == x
    {
      if x == h {
        assert after[n] == x;
      } else {
        var m :| m in owners && owners[m] == x;
        assert after[m] == x;
      }
    }
  }

  lemma OwnLess<T>(owners: map<Id, T>, all: set<T>, n: Id)
    requires OwnedOnce(owners, all) && n in owners
    ensures OwnedOnce(owners - {n}, all - {owners[n]})
  {
    var after := owners - {n};
    forall x | x in all - {owners[n]}
      ensures exists m :: m in after && after[m] == x
    {
      var m :| m in owners && owners[m] == x;
      assert after[m] == x;
    }
  }

  lemma OwnMoved<T>(owners: map<Id, T>, all: set<T>, n: Id, m: Id)
    requires OwnedOnce(owners, all) && n in owners && m !in owners
    ensures OwnedOnce((owners - {n})[m := owners[n]], all)
  {
    OwnLess(owners, all, n);
    OwnMore(owners - {n}, all - {owners[n]}, m, owners[n]);
    assert all - {owners[n]} + {owners[n]} == all;
  }

  lemma CreatedHandles(s: State, n: Id, key: Key, f: Handle, format: Format)
    requires HandlesOk(s) && n !in s.nodes
    requires NameOf(key) != "" ==> f >= 0 && f !in s.openFiles && format !in s.formats
    ensures HandlesOk(Created(s, n, key, f, format)) <==> NameOf(key) != ""
  {
    var t := Created(s, n, key, f, format);
    if NameOf(key) != "" {
      OwnMore(Files(s.nodes), s.openFiles, n, f);
      OwnMore(Formats(s.nodes), s.formats, n, format);
      assert Files(t.nodes) == Files(s.nodes)[n := f];
      assert Formats(t.nodes) == Formats(s.nodes)[n := format];
    } else {
      assert n in Files(t.nodes) && Files(t.nodes)[n] == 0;
      if 0 in s.openFiles {
        var m :| m in Files(s.nodes) && Files(s.nodes)[m] == 0;
        assert m in Files(t.nodes) && Files(t.nodes)[m] == 0 && m != n;
      }
    }
  }

  /**
   An override of a node with clients: the clients stay on it and are to be sent to `dest`; it is
   detached from its name and has no file left. File and format go to a copy under the same name
   without clients, that does not expire; each file still has one owner.
   */
  lemma OverriddenHandles(s: State, n: Id, copy: Id, dest: string)
    requires HandlesOk(s) && n in s.nodes && copy !in s.nodes
    ensures HandlesOk(Overridden(s, n, copy, dest))
    ensures s.nodes[n].refcount <= 0 ==> Overridden(s, n, copy, dest) == s
    ensures
      s.nodes[n].refcount > 0 ==>
        var t := Overridden(s, n, copy, dest);
        var was, left, clean := s.nodes[n], t.nodes[n], t.nodes[copy];
        && left.override == Some(dest) && left.f == -1 && left.format == None
        && left.key.mount == was.key.mount && left.key.flags.delete && !left.key.flags.fallback
        && ClientsOf(t, n) == ClientsOf(s, n) && left.clients == was.clients && left.refcount == was.refcount
        && clean.f == was.f && clean.format == was.format && clean.key == was.key && clean.override == was.override
        && clean.clients == Some({}) && clean.refcount == 0 && (forall now :: !Expired(clean, now))
        && n !in t.cache && copy in t.cache && t.held == s.held && t.refs == s.refs
        && forall m :: m in s.nodes && m != n ==> m in t.nodes && t.nodes[m] == s.nodes[m]
  {
    hide OwnedOnce;
    var t, node := Overridden(s, n, copy, dest), s.nodes[n];
    if node.refcount > 0 {
      if node.f != -1 {
        OwnMoved(Files(s.nodes), s.openFiles, n, copy);
        assert Files(t.nodes) == (Files(s.nodes) - {n})[copy := node.f];
      } else {
        assert Files(t.nodes) == Files(s.nodes);
      }
      if node.format != None {
        OwnMoved(Formats(s.nodes), s.formats, n, copy);
        assert Formats(t.nodes) == (Formats(s.nodes) - {n})[copy := node.format.value];
      } else {
        assert Formats(t.nodes) == Formats(s.nodes);
      }
    }
  }

  lemma DeletedHandles(s: State, n: Id)
    requires HandlesOk(s) && n in s.nodes
    ensures HandlesOk(Deleted(s, n))
  {
    hide OwnedOnce;
    var t, node := Deleted(s, n), s.nodes[n];
    assert Files(t.nodes) == Files(s.nodes) - {n} && Formats(t.nodes) == Formats(s.nodes) - {n};
    if node.f != -1 {
      OwnLess(Files(s.nodes), s.openFiles, n);
    } else {
      assert Files(s.nodes) - {n} == Files(s.nodes);
    }
    if node.format != None {
      OwnLess(Formats(s.nodes), s.formats, n);
    } else {
      assert Formats(s.nodes) - {n} == Formats(s.nodes);
    }
  }

  /** A step that gives no node another file or format. */
  lemma SameHandles(s: State, t: State)
    requires HandlesOk(s) && t.openFiles == s.openFiles && t.formats == s.formats
    requires Files(t.nodes) == Files(s.nodes) && Formats(t.nodes) == Formats(s.nodes)
    ensures HandlesOk(t)
  {
  }

  lemma OtherFiles(nodes: map<Id, Node>, n: Id, node: Node)
    requires
      if n in nodes then node.f == nodes[n].f && node.format == nodes[n].format
      else node.f == -1 && node.format == None
    ensures Files(nodes[n := node]) == Files(nodes) && Formats(nodes[n := node]) == Formats(nodes)
  {
  }

  lemma SameFiles(s: State, e: Event)
    requires CacheOk(s) && Enabled(s, e) && !e.Create? && !e.Override? && !e.Delete?
    ensures Next(s, e).openFiles == s.openFiles && Next(s, e).formats == s.formats
    ensures Files(Next(s, e).nodes) == Files(s.nodes) && Formats(Next(s, e).nodes) == Formats(s.nodes)
  {
    Known(s);
    hide CacheOk, Files, Formats;
    match e
    case Make(n, mount) => OtherFiles(s.nodes, n, Temporary(s, n, mount).nodes[n]);
    case Attach(n, c) => OtherFiles(s.nodes, n, WithClient(s.nodes[n], c));
    case Detach(n, c, now) => OtherFiles(s.nodes, n, WithoutClient(s.nodes[n], c, now));
    case Scan(n, now) => OtherFiles(s.nodes, n, s.nodes[n].(expire := 0));
    case Query(n, now) => OtherFiles(s.nodes, n, s.nodes[n].(expire := now + 20));
    case _ =>
  }

  /** A step keeps every file and format with one owner exactly if it does not make a node without a name. */
  lemma StepKeepsHandles(s: State, e: Event)
    requires CacheOk(s) && HandlesOk(s) && Enabled(s, e)
    ensures HandlesOk(Next(s, e)) <==> Named(e)
  {
    hide OwnedOnce, CountOk, PlaceOk, HandlesOk;
    match e
    case Create(n, key, f, format) => CreatedHandles(s, n, key, f, format);
    case Override(n, copy, dest) => OverriddenHandles(s, n, copy, dest);
    case Delete(n) => DeletedHandles(s, n);
    case _ =>
      SameFiles(s, e);
      SameHandles(s, Next(s, e));
  }

  /** Over every run: counts, places and keys; and what is freed is never seen again. */
  lemma {:induction false} RunKeeps(s: State, es: seq<Event>, t: State)
    requires Run(s, es, t)
    ensures CacheOk(t) && s.freed <= t.freed
    ensures forall n :: n in s.freed ==> n !in t.nodes && n !in t.held && n !in t.doomed
    decreases |es|
  {
    if es != [] {
      StepKeeps(s, es[0]);
      RunKeeps(Next(s, es[0]), es[1..], t);
    }
  }

  /** Over every run in which no node is made without a name. */
  lemma {:induction false} RunKeepsHandles(s: State, es: seq<Event>, t: State)
    requires Run(s, es, t) && HandlesOk(s) && forall i :: 0 <= i < |es| ==> Named(es[i])
    ensures HandlesOk(t)
    decreases |es|
  {
    if es != [] {
      assert Named(es[0]);
      StepKeepsHandles(s, es[0]);
      RunKeepsHandles(Next(s, es[0]), es[1..], t);
    }
  }

  /** The client is on a detached node, from which it is to be sent to `dest`. */
  ghost predicate SentOn(s: State, c: Client, n: Id, dest: string) {
    (c, n) in s.refs && n in s.nodes && n !in s.cache && s.nodes[n].override == Some(dest)
  }

  lemma OverrideSends(s: State, n: Id, copy: Id, dest: string, c: Client)
    requires CacheOk(s) && Enabled(s, Override(n, copy, dest)) && (c, n) in s.refs
    ensures SentOn(Next(s, Override(n, copy, dest)), c, n, dest)
  {
    RefsAreClients(s, n);
    assert CountOk(s, n) && c in ClientsOf(s, n) && |ClientsOf(s, n)| > 0;
  }

  lemma StaysSentOn(s: State, e: Event, c: Client, n: Id, dest: string)
    requires CacheOk(s) && Enabled(s, e) && SentOn(s, c, n, dest) && !(e.Detach? && e.n == n && e.c == c)
    ensures SentOn(Next(s, e), c, n, dest)
  {
    HeldIsLive(s, n);
    hide CountOk, PlaceOk;
  }

  lemma {:induction false} RunStaysSentOn(s: State, es: seq<Event>, t: State, c: Client, n: Id, dest: string)
    requires Run(s, es, t) && SentOn(s, c, n, dest)
    requires forall i :: 0 <= i < |es| && es[i].Detach? ==> es[i].n != n || es[i].c != c
    ensures SentOn(t, c, n, dest)
    decreases |es|
  {
    if es != [] {
      assert es[0].Detach? ==> es[0].n != n || es[0].c != c;
      StaysSentOn(s, es[0], c, n, dest);
      hide CacheOk, SentOn, Enabled, Next;
      RunStaysSentOn(Next(s, es[0]), es[1..], t, c, n, dest);
    }
  }

  /**
   Over every run that begins with an override: a client that was on the node is on it until
   it leaves, and finds there the destination that was given.
   */
  lemma OverrideReaches(s: State, n: Id, copy: Id, dest: string, es: seq<Event>, t: State, c: Client)
    requires Run(s, [Override(n, copy, dest)] + es, t) && (c, n) in s.refs
    requires forall i :: 0 <= i < |es| && es[i].Detach? ==> es[i].n != n || es[i].c != c
    ensures SentOn(t, c, n, dest)
  {
    hide CacheOk, SentOn, Next;
    var e := Override(n, copy, dest);
    assert ([e] + es)[0] == e && ([e] + es)[1..] == es;
    OverrideSends(s, n, copy, dest, c);
    RunStaysSentOn(Next(s, e), es, t, c, n, dest);
  }

  // -------------------------------------------------------------------- locked nodes

  /** A node that is found is locked: nobody else finds, scans, overrides or leaves it until it is let go. */
  lemma FoundIsLocked(s: State, n: Id, c: Client)
    requires CacheOk(s) && Enabled(s, Find(n)) && (c, n) !in s.refs
    ensures CacheOk(Next(s, Find(n)))
    ensures
      var t := Next(s, Find(n));
      && Enabled(t, Attach(n, c)) && Enabled(t, Abandon(n)) && !Enabled(t, Find(n))
      && (forall now :: !Enabled(t, Scan(n, now))) && (forall copy, dest :: !Enabled(t, Override(n, copy, dest)))
      && (forall d, now :: !Enabled(t, Detach(n, d, now)))
      && Enabled(Unlocked(t, n), Find(n)) && t.nodes == s.nodes && t.refs == s.refs
  {
    FoundKeeps(s, n);
    UnlockKeeps(Next(s, Find(n)), n);
    hide CountOk, PlaceOk;
  }

  /** The node for one response is made locked and outside the cache, and goes with its one client. */
  lemma TemporaryServesOne(s: State, n: Id, mount: string, c: Client, now: int)
    requires CacheOk(s) && Enabled(s, Make(n, mount)) && now > 0
    ensures
      var t := Temporary(s, n, mount);
      && CacheOk(t) && n !in t.cache && Enabled(t, Attach(n, c)) && t.nodes[n].key.mount == Some(mount)
      && t.nodes[n].f == -1 && t.nodes[n].format == None && t.nodes[n].override == None
      && var u := Attached(t, n, c);
      && CacheOk(u) && ClientsOf(u, n) == {c} && Enabled(u, Detach(n, c, now))
      && n in Detached(u, n, c, now).doomed
  {
    var t := Temporary(s, n, mount);
    TemporaryKeeps(s, n, mount);
    NoClients(t, n);
    AttachedKeeps(t, n, c);
    hide CountOk, PlaceOk;
  }

  // -------------------------------------------------------------------- when an unused node goes

  /** The last client leaves a name: it expires two minutes later, a fallback never. */
  lemma LeftExpires(s: State, n: Id, c: Client, now: int, later: int)
    requires CacheOk(s) && Enabled(s, Detach(n, c, now)) && n in s.cache && n != NO_FILE && ClientsOf(s, n) == {c}
    ensures
      !s.nodes[n].key.flags.fallback ==>
        (Expired(Next(s, Detach(n, c, now)).nodes[n], later) <==> later >= now + 120)
    ensures
      s.nodes[n].key.flags.fallback ==>
        Next(s, Detach(n, c, now)).nodes[n].expire == s.nodes[n].expire
  {
    assert CountOk(s, n) && PlaceOk(s, n);
  }

  /** Only asking for the number of clients of an unused name keeps it for 20 seconds from then. */
  lemma QueriedExpires(s: State, n: Id, now: int, later: int)
    requires CacheOk(s) && Enabled(s, Query(n, now))
    ensures
      Expired(Next(s, Query(n, now)).nodes[n], later)
      <==> s.nodes[n].refcount == 0 && later >= now + 20
  {
  }

  /** A new node that no client is attached to expires at once, a fallback never. */
  lemma OpenedExpires(key: Key, f: Handle, format: Format, now: int)
    requires now >= 0
    ensures
      var node := Opened(key, f, format);
      && node.key == Key(Some(NameOf(key)), key.flags) && node.refcount == 0 && node.clients == Some({})
      && (Expired(node, now) <==> NameOf(key) == "" || !key.flags.fallback)
  {
  }

  /** The node is used, and its time is set when it no longer is, or it never expires, or not before `due`. */
  predicate NotDue(node: Node, due: int) {
    (node.refcount > 0 && !node.key.flags.fallback) || node.expire < 0 || node.expire >= due
  }

  /** Scans before `due`, and other uses at most 20 seconds before it. */
  predicate Timely(e: Event, n: Id, due: int) {
    match e
    case Scan(_, now) => 0 < now < due
    case Query(_, now) => now + 20 >= due
    case Detach(_, _, now) => now + 20 >= due
    case Override(m, _, _) => m != n
    case _ => true
  }

  lemma StepKeepsCached(s: State, e: Event, n: Id, due: int)
    requires CacheOk(s) && Enabled(s, e) && n in s.cache && NotDue(s.nodes[n], due) && Timely(e, n, due)
    ensures n in Next(s, e).cache && n in Next(s, e).nodes && NotDue(Next(s, e).nodes[n], due)
  {
    assert CountOk(s, n) && PlaceOk(s, n);
    RefsAreClients(s, n);
    assert e.Detach? && e.n == n ==> ClientsOf(s, n) != {};
  }

  /** Over every run a cached name is kept until it is due, whatever is scanned. */
  lemma {:induction false} RunKeepsCached(s: State, es: seq<Event>, t: State, n: Id, due: int)
    requires Run(s, es, t) && n in s.cache && n in s.nodes && NotDue(s.nodes[n], due)
    requires forall i :: 0 <= i < |es| ==> Timely(es[i], n, due)
    ensures n in t.cache && n in t.nodes && NotDue(t.nodes[n], due)
    decreases |es|
  {
    if es != [] {
      assert Timely(es[0], n, due);
      StepKeepsCached(s, es[0], n, due);
      hide CacheOk, Enabled, Next, NotDue, Timely;
      RunKeepsCached(Next(s, es[0]), es[1..], t, n, due);
    }
  }

  lemma RunFirst(s: State, e: Event, es: seq<Event>, t: State)
    requires CacheOk(s) && Enabled(s, e) && Run(Next(s, e), es, t)
    ensures Run(s, [e] + es, t)
  {
    assert ([e] + es)[0] == e && ([e] + es)[1..] == es;
  }

  lemma RunNone(s: State)
    requires CacheOk(s)
    ensures Run(s, [], s)
  {
  }

  /** A node is made without a name and given up, expires, and is deleted. */
  function Passing(n: Id, flags: Flags): seq<Event> {
    [Create(n, Key(None, flags), 0, 0), Abandon(n), Scan(n, 1), Delete(n)]
  }

  lemma UnnamedGoes(s: State, n: Id)
    requires CacheOk(s) && n in s.cache && n !in s.held && n in s.nodes && Expired(s.nodes[n], 1)
    ensures Run(s, [Scan(n, 1), Delete(n)], Deleted(Scanned(s, n, 1), n))
  {
    hide CacheOk;
    var s1 := Next(s, Scan(n, 1));
    StepKeeps(s, Scan(n, 1));
    StepKeeps(s1, Delete(n));
    RunNone(Next(s1, Delete(n)));
    RunFirst(s1, Delete(n), [], Next(s1, Delete(n)));
    RunFirst(s, Scan(n, 1), [Delete(n)], Next(s1, Delete(n)));
    assert [Delete(n)] + [] == [Delete(n)] && [Scan(n, 1)] + [Delete(n)] == [Scan(n, 1), Delete(n)];
  }

  lemma UnnamedPasses(s: State, n: Id, flags: Flags)
    requires CacheOk(s) && Enabled(s, Create(n, Key(None, flags), 0, 0))
    ensures
      var made := Unlocked(Created(s, n, Key(None, flags), 0, 0), n);
      && n in made.nodes && Expired(made.nodes[n], 1)
      && Run(s, Passing(n, flags), Deleted(Scanned(made, n, 1), n))
  {
    hide CountOk, PlaceOk;
    var create := Create(n, Key(None, flags), 0, 0);
    var s1 := Next(s, create);
    StepKeeps(s, create);
    StepKeeps(s1, Abandon(n));
    hide CacheOk;
    var s2 := Next(s1, Abandon(n));
    UnnamedGoes(s2, n);
    var t := Deleted(Scanned(s2, n, 1), n);
    RunFirst(s1, Abandon(n), [Scan(n, 1), Delete(n)], t);
    RunFirst(s, create, [Abandon(n), Scan(n, 1), Delete(n)], t);
    assert [Abandon(n)] + [Scan(n, 1), Delete(n)] == [Abandon(n), Scan(n, 1), Delete(n)];
    assert [create] + [Abandon(n), Scan(n, 1), Delete(n)] == Passing(n, flags);
  }

  /** What a node without a name can do: expire at once, and close the file of another node that has the zero handle. */
  lemma UnnamedClosesAnother(s: State, n: Id, m: Id, flags: Flags)
    requires CacheOk(s) && HandlesOk(s) && m in s.cache && s.nodes[m].f == 0
    requires Enabled(s, Create(n, Key(None, flags), 0, 0))
    ensures
      var t := Deleted(Scanned(Unlocked(Created(s, n, Key(None, flags), 0, 0), n), n, 1), n);
      && Run(s, Passing(n, flags), t)
      && 0 in s.openFiles && 0 !in t.openFiles && m in t.cache && m in t.nodes && t.nodes[m].f == 0
  {
    hide CountOk, PlaceOk, Run;
    assert m in Files(s.nodes);
    UnnamedPasses(s, n, flags);
  }

  /** A node is freed only when no client points to it, it is not locked, and the cache does not have it. */
  lemma FreedUnused(s: State, n: Id)
    requires CacheOk(s) && Enabled(s, Delete(n))
    ensures s.nodes[n].refcount == 0 && n !in s.cache && n !in s.held && n != NO_FILE && ClientsOf(s, n) == {}
    ensures n !in s.freed && n in Deleted(s, n).freed && !Enabled(Deleted(s, n), Delete(n))
  {
    StepKeeps(s, Delete(n));
    NoClients(s, n);
  }

  /** The last client to leave a detached node has it freed, and never sooner. */
  lemma LastClientFrees(s: State, n: Id, c: Client, now: int)
    requires CacheOk(s) && Enabled(s, Detach(n, c, now)) && n !in s.cache
    ensures n in Detached(s, n, c, now).doomed <==> ClientsOf(s, n) == {c}
  {
    RefsAreClients(s, n);
    if s.nodes[n].clients != None {
      var rest := ClientsOf(s, n) - {c};
      assert ClientsOf(s, n) == rest + {c};
      assert |rest| == 0 <==> rest == {};
    }
  }

  function Initial(): State {
    State(map[NO_FILE := Node(Key(None, NO_FLAGS), None, 1, Some({}), -1, None, -1)],
          {NO_FILE}, {}, {}, {}, {}, {}, {})
  }

  lemma InitialOk()
    ensures CacheOk(Initial()) && HandlesOk(Initial())
  {
    NoClients(Initial(), NO_FILE);
  }

  const OPEN: Event := Create(1, Key(Some("a"), NO_FLAGS), 0, 0)

  lemma FirstOpened()
    ensures CacheOk(Initial()) && Enabled(Initial(), OPEN)
    ensures
      var s := Next(Initial(), OPEN);
      && CacheOk(s) && HandlesOk(s) && 1 in s.cache && s.nodes[1].f == 0
      && Enabled(s, Create(2, Key(None, NO_FLAGS), 0, 0))
  {
    hide CountOk, PlaceOk, HandlesOk;
    InitialOk();
    StepKeeps(Initial(), OPEN);
    StepKeepsHandles(Initial(), OPEN);
  }

  /**
   From the start: a file is opened and gets handle 0; a node without a name comes and goes,
   and the file is closed.
   */
  lemma OpenFileIsClosed()
    ensures
      exists t ::
        && Run(Initial(), [OPEN] + Passing(2, NO_FLAGS), t)
        && 1 in t.cache && 1 in t.nodes && t.nodes[1].f == 0 && 0 !in t.openFiles
  {
    hide CacheOk, HandlesOk, Run, Next, Passing;
    FirstOpened();
    var s := Next(Initial(), OPEN);
    UnnamedClosesAnother(s, 2, 1, NO_FLAGS);
    var t := Deleted(Scanned(Unlocked(Created(s, 2, Key(None, NO_FLAGS), 0, 0), 2), 2, 1), 2);
    RunFirst(Initial(), OPEN, Passing(2, NO_FLAGS), t);
  }

  // -------------------------------------------------------------------- the order of the cache

  /** strcmp, by its sign */
  function StrCmp(x: string, y: string): int {
    if x == [] && y == [] then 0
    else if x == [] then -1
    else if y == [] then 1
    else if x[0] != y[0] then x[0] as int - y[0] as int
    else StrCmp(x[1..], y[1..])
  }

  /** _compare_fh */
  function CompareFh(x: Key, y: Key): int {
    if x.mount == None && y.mount != None then -1
    else if x.mount != None && y.mount == None then 1
    else
      var r := if x.mount != None then StrCmp(x.mount.value, y.mount.value) else 0;
      if r != 0 then r else x.flags.Value() - y.flags.Value()
  }

  lemma {:induction false} StrCmpOrder(x: string, y: string, z: string)
    ensures StrCmp(x, y) == 0 <==> x == y
    ensures StrCmp(x, y) < 0 <==> StrCmp(y, x) > 0
    ensures StrCmp(x, y) <= 0 && StrCmp(y, z) <= 0 ==> StrCmp(x, z) <= 0
    decreases |x|
  {
    if x != [] && y != [] {
      if x[0] == y[0] {
        StrCmpOrder(x[1..], y[1..], if z == [] then [] else z[1..]);
        assert x == [x[0]] + x[1..] && y == [y[0]] + y[1..];
      }
    }
  }

  lemma FlagsByValue(x: Flags, y: Flags)
    ensures x.Value() == y.Value() <==> x == y
  {
    assert x.Value() / 32 == (if x.missing then 1 else 0) && y.Value() / 32 == (if y.missing then 1 else 0);
  }

  /** The tree is kept by a total order in which only the same name and flags are equal. */
  lemma CompareIsOrder(x: Key, y: Key, z: Key)
    ensures CompareFh(x, y) == 0 <==> x == y
    ensures CompareFh(x, y) < 0 <==> CompareFh(y, x) > 0
    ensures CompareFh(x, y) <= 0 && CompareFh(y, z) <= 0 ==> CompareFh(x, z) <= 0
  {
    hide StrCmp, Flags.Value;
    FlagsByValue(x.flags, y.flags);
    FlagsByValue(y.flags, z.flags);
    if x.mount != None && y.mount != None {
      StrCmpOrder(x.mount.value, y.mount.value, if z.mount == None then "" else z.mount.value);
      StrCmpOrder(y.mount.value, x.mount.value, "");
      if z.mount != None {
        StrCmpOrder(y.mount.value, z.mount.value, x.mount.value);
        StrCmpOrder(x.mount.value, z.mount.value, y.mount.value);
        StrCmpOrder(z.mount.value, x.mount.value, y.mount.value);
        StrCmpOrder(z.mount.value, y.mount.value, x.mount.value);
      }
    }
  }
}
