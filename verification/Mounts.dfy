/**
 Mount settings by name: the template list that _parse_mount keeps ordered and the lookup
 config_find_mount, of src/cfgfile.c.
 */
module Mounts {
  import opened Glob
  import opened FnMatch
  import opened GlobLaws
  import opened Wrappers

  const INT_MAX: nat := 0x7FFF_FFFF

  /** A negative priority is the lowest, as is one that is not given. */
  function Effective(priority: int): nat {
    if priority < 0 then INT_MAX else priority
  }

  /** A priority that is given is kept, and comes before a negative one, which is as none. */
  lemma PriorityIs(priority: int, other: int)
    requires priority <= INT_MAX && other < 0
    ensures priority >= 0 ==> Effective(priority) == priority
    ensures Effective(other) == 0x7FFF_FFFF >= Effective(priority)
  {
  }

  class MountProxy {
    const name: seq<Ascii>
    const priority: nat
    var next: MountProxy?

    ghost const serial: nat  // how many templates were configured before

    constructor (name: seq<Ascii>, priority: int, ghost serial: nat)
      ensures this.name == name && this.priority == Effective(priority) && this.serial == serial && next == null
    {
      this.name, this.priority, this.serial, next := name, Effective(priority), serial, null;
    }
  }

  /** config_mount_template */
  predicate IsTemplate(name: seq<Ascii>) {
    exists i :: 0 <= i < |name| && name[i] in ['*', '?', '[', '+', '!', '@', '$']
  }

  /**
   A name that is kept in the tree denotes as a pattern only itself, exactly if it has no
   backslash, so that looking it up there is all that matching could do.
   */
  lemma NameIsPlain(name: seq<Ascii>, posixlyCorrect: bool)
    requires !IsTemplate(name)
    ensures (forall s :: Accepts(name, s, posixlyCorrect) <==> s == name) <==> '\\' !in name
  {
    hide Accepts;
    if '\\' !in name {
      forall s
        ensures Accepts(name, s, posixlyCorrect) <==> s == name
      {
        PlainDenotesItself(name, s, posixlyCorrect);
      }
    } else {
      if Accepts(name, name, posixlyCorrect) {
        QuotedDenotesLess(name, name, posixlyCorrect);
      }
    }
  }

  function NodeAt(list: seq<MountProxy>, i: nat): MountProxy? {
    if i < |list| then list[i] else null
  }

  /** Least priority first, and among equals the latest first. */
  ghost predicate Precedes(a: MountProxy, b: MountProxy) {
    a.priority < b.priority || (a.priority == b.priority && a.serial > b.serial)
  }

  /** The template to prefer: of less priority or, among equals, configured earlier. */
  ghost predicate Preferred(a: MountProxy, b: MountProxy) {
    a.priority < b.priority || (a.priority == b.priority && a.serial <= b.serial)
  }

  ghost predicate LeadsOn(list: seq<MountProxy>, i: nat)
    requires i < |list|
    reads list
  {
    list[i].next == NodeAt(list, i + 1)
  }

  ghost predicate Linked(list: seq<MountProxy>)
    reads list
  {
    forall i :: 0 <= i < |list| ==> LeadsOn(list, i)
  }

  ghost predicate Ordered(list: seq<MountProxy>) {
    forall i, j :: 0 <= i < j < |list| ==> Precedes(list[i], list[j])
  }

  lemma OrderedInsert(list: seq<MountProxy>, k: nat, mount: MountProxy)
    requires Ordered(list) && k <= |list|
    requires forall m :: m in list ==> m.serial < mount.serial
    requires forall i :: 0 <= i < k ==> list[i].priority < mount.priority
    requires k < |list| ==> mount.priority <= list[k].priority
    ensures Ordered(list[..k] + [mount] + list[k..])
    ensures forall i, j :: 0 <= i < j < |list| ==> list[i] != list[j]
  {
    var after := list[..k] + [mount] + list[k..];
    forall i, j | 0 <= i < j < |after|
      ensures Precedes(after[i], after[j])
    {
      var was := (x: nat) => if x < k then x else x - 1;
      if i == k {
        assert after[j] == list[j - 1] && (k < j - 1 ==> Precedes(list[k], list[j - 1]));
      } else if j != k {
        assert after[i] == list[was(i)] && after[j] == list[was(j)];
        assert Precedes(list[was(i)], list[was(j)]);
      }
    }
    forall i, j | 0 <= i < j < |list|
      ensures list[i] != list[j]
    {
      assert Precedes(list[i], list[j]);
    }
  }

  /** The nodes lead on as before, but the one before the new node leads to it. */
  lemma Respliced(list: seq<MountProxy>, k: nat, mount: MountProxy, after: seq<MountProxy>)
    requires k <= |list| && mount.next == NodeAt(list, k) && after == list[..k] + [mount] + list[k..]
    requires forall i :: 0 <= i < |list| ==> list[i].next == if i + 1 == k then mount else NodeAt(list, i + 1)
    ensures Linked(after)
  {
    forall i | 0 <= i < |after|
      ensures LeadsOn(after, i)
    {
      assert i < k ==> after[i] == list[i];
      assert i > k ==> after[i] == list[i - 1];
    }
  }

  lemma Links(list: seq<MountProxy>)
    requires Linked(list)
    ensures forall i :: 0 <= i < |list| ==> list[i].next == NodeAt(list, i + 1)
  {
    forall i | 0 <= i < |list|
      ensures list[i].next == NodeAt(list, i + 1)
    {
      assert LeadsOn(list, i);
    }
  }

  lemma InOrder(list: seq<MountProxy>, i: nat, j: nat)
    requires Ordered(list) && i < |list| && j < |list|
    ensures i < j ==> Precedes(list[i], list[j]) && list[i] != list[j]
  {
  }

  /** Of the first `k` templates, the one at `found` is preferred to all others that match. */
  ghost predicate BestOf(list: seq<MountProxy>, k: nat, mount: seq<Ascii>, posixlyCorrect: bool, best: MountProxy?,
                         found: nat)
  {
    && k <= |list|
    && (best == null ==> forall i :: 0 <= i < k ==> !Accepts(list[i].name, mount, posixlyCorrect))
    && (best != null ==>
          && found < k && best == list[found] && Accepts(best.name, mount, posixlyCorrect)
          && forall i :: 0 <= i < k && Accepts(list[i].name, mount, posixlyCorrect) ==> Preferred(best, list[i]))
  }

  lemma BestNext(list: seq<MountProxy>, k: nat, mount: seq<Ascii>, posixlyCorrect: bool, best: MountProxy?, found: nat)
    requires BestOf(list, k, mount, posixlyCorrect, best, found) && Ordered(list) && k < |list|
    requires best != null ==> list[k].priority <= best.priority
    ensures
      if Accepts(list[k].name, mount, posixlyCorrect) then BestOf(list, k + 1, mount, posixlyCorrect, list[k], k)
      else BestOf(list, k + 1, mount, posixlyCorrect, best, found)
  {
    hide Accepts;
    if best != null {
      InOrder(list, found, k);
    }
  }

  lemma RestIsLess(list: seq<MountProxy>, k: nat, mount: seq<Ascii>, posixlyCorrect: bool, best: MountProxy?,
                   found: nat)
    requires BestOf(list, k, mount, posixlyCorrect, best, found) && Ordered(list) && k < |list|
    requires best != null && best.priority < list[k].priority
    ensures BestOf(list, |list|, mount, posixlyCorrect, best, found)
  {
    hide Accepts, Ordered;
    forall i | k <= i < |list|
      ensures Preferred(best, list[i])
    {
      InOrder(list, k, i);
    }
  }

  class Config {
    const posixlyCorrect: bool
    var mounts: MountProxy?
    var exact: set<MountProxy>  // mounts_tree

    ghost var list: seq<MountProxy>
    ghost var configured: nat

    ghost predicate Valid()
      reads this, list
    {
      && mounts == NodeAt(list, 0) && Linked(list) && Ordered(list)
      && (forall m :: m in list ==> m.serial < configured && IsTemplate(m.name) && InModel(m.name, posixlyCorrect))
      && (forall m :: m in exact ==> !IsTemplate(m.name))
    }

    constructor (posixlyCorrect: bool)
      ensures Valid() && list == [] && exact == {} && configured == 0
    {
      this.posixlyCorrect, mounts, exact, list, configured := posixlyCorrect, null, {}, [], 0;
    }

    /** The first template of at least this priority, and the one before it; null stands for the head's address. */
    method FindPlace(priority: nat) returns (trail: MountProxy?, m: MountProxy?, ghost k: nat)
      requires Valid()
      ensures k <= |list| && m == NodeAt(list, k) && trail == if k == 0 then null else list[k - 1]
      ensures forall i :: 0 <= i < k ==> list[i].priority < priority
      ensures m != null ==> priority <= m.priority
    {
      hide IsTemplate, InModel, Ordered;
      m, trail, k := mounts, null, 0;
      while m != null && m.priority < priority
        invariant k <= |list| && m == NodeAt(list, k) && trail == (if k == 0 then null else list[k - 1])
        invariant forall i :: 0 <= i < k ==> list[i].priority < priority
        decreases |list| - k
      {
        assert LeadsOn(list, k);
        trail := m;
        m := trail.next;
        k := k + 1;
      }
    }

    /** `*trail = mount` */
    method Store(trail: MountProxy?, mount: MountProxy)
      modifies this`mounts, trail
      ensures if trail == null then mounts == mount else trail.next == mount && mounts == old(mounts)
    {
      if trail == null {
        mounts := mount;
      } else {
        trail.next := mount;
      }
    }

    method Splice(mount: MountProxy, trail: MountProxy?, ghost k: nat)
      requires Valid() && mount !in list && k <= |list|
      requires trail == if k == 0 then null else list[k - 1]
      requires mount.next == NodeAt(list, k) && mount.serial == configured
      requires IsTemplate(mount.name) && InModel(mount.name, posixlyCorrect)
      requires Ordered(list[..k] + [mount] + list[k..])
      requires forall i :: 0 <= i < |list| && i + 1 != k ==> trail == null || list[i] != trail
      modifies this`mounts, this`list, this`configured, list
      ensures Valid() && configured == old(configured) + 1
      ensures list == old(list[..k]) + [mount] + old(list[k..])
    {
      hide IsTemplate, InModel, Ordered, Linked;
      ghost var after := list[..k] + [mount] + list[k..];
      Links(list);
      Store(trail, mount);
      Respliced(list, k, mount, after);
      list := after;
      configured := configured + 1;
    }

    /** The end of _parse_mount: a template goes before the first of at least its priority. */
    method AddMount(name: seq<Ascii>, priority: int) returns (mount: MountProxy)
      requires Valid() && (IsTemplate(name) ==> InModel(name, posixlyCorrect))
      modifies this, list
      ensures Valid() && fresh(mount) && mount.name == name && mount.priority == Effective(priority)
      ensures mount.serial == old(configured)
      ensures
        if IsTemplate(name) then
          exact == old(exact) && configured == old(configured) + 1
          && exists k :: 0 <= k <= |old(list)| && list == old(list[..k]) + [mount] + old(list[k..])
        else exact == old(exact) + {mount} && list == old(list) && configured == old(configured)
    {
      hide IsTemplate, InModel, Ordered;
      mount := new MountProxy(name, priority, configured);
      if IsTemplate(name) {
        ghost var k;
        var trail, m;
        trail, m, k := FindPlace(mount.priority);
        OrderedInsert(list, k, mount);
        mount.next := m;
        Splice(mount, trail, k);
      } else {
        exact := exact + {mount};
      }
    }

    method FindTemplate(mount: seq<Ascii>) returns (toReturn: MountProxy?)
      requires Valid()
      ensures toReturn == null <==> forall m :: m in list ==> !Accepts(m.name, mount, posixlyCorrect)
      ensures
        toReturn != null ==>
          && toReturn in list && Accepts(toReturn.name, mount, posixlyCorrect)
          && forall m :: m in list && Accepts(m.name, mount, posixlyCorrect) ==> Preferred(toReturn, m)
    {
      hide Accepts, InModel, IsTemplate, Ordered;
      var info := mounts;
      toReturn := null;
      ghost var k, found := 0, 0;
      while info != null
        invariant k <= |list| && info == NodeAt(list, k)
        invariant BestOf(list, k, mount, posixlyCorrect, toReturn, found)
        decreases |list| - k
      {
        if toReturn != null && toReturn.priority < info.priority {
          RestIsLess(list, k, mount, posixlyCorrect, toReturn, found);
          return;
        }
        assert LeadsOn(list, k);
        var n := Fnmatch(info.name, mount, posixlyCorrect);
        BestNext(list, k, mount, posixlyCorrect, toReturn, found);
        if n == 0 {
          toReturn, found := info, k;
        }
        info := info.next;
        k := k + 1;
      }
    }

    /** config_find_mount */
    method FindMount(mount: Option<seq<Ascii>>) returns (r: MountProxy?)
      requires Valid()
      ensures mount == None ==> r == null
      ensures
        mount != None ==>
          if exists m :: m in exact && m.name == mount.value then r != null && r in exact && r.name == mount.value
          else
            && (r == null <==> forall m :: m in list ==> !Accepts(m.name, mount.value, posixlyCorrect))
            && (r != null ==>
                  && r in list && Accepts(r.name, mount.value, posixlyCorrect)
                  && forall m :: m in list && Accepts(m.name, mount.value, posixlyCorrect) ==> Preferred(r, m))
    {
      hide Accepts, InModel, IsTemplate;
      if mount == None {
        return null;
      }
      if exists m :: m in exact && m.name == mount.value {
        r :| r in exact && r.name == mount.value;
        return;
      }
      r := FindTemplate(mount.value);
    }
  }
}
