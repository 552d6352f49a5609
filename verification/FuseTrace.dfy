/** The tracer's inode cache as the program keeps it: inodes on the heap, linked both ways. */
module FuseTrace {
  import opened Wrappers
  import opened MachineInts
  import opened FileSystem
  import opened CacheModel

  class Inode {
    var ino: Ino
    var ref: int32
    var fds: set<Fd>
    var parents: map<(Name, Ino), Inode>
    var dentries: map<Name, Inode>

    constructor (i: Ino)
      ensures ino == i && ref == 0 && fds == {} && parents == map[] && dentries == map[]
    {
      ino, ref, fds, parents, dentries := i, 0, {}, map[], map[];
    }

    function Child(n: Name): Inode
      requires n in dentries
      reads this
    {
      dentries[n]
    }
  }

  type InodeMap = map<Ino, Inode?>

  /** `d` holds exactly the names `links` has in directory `i`. */
  ghost predicate ChildrenOf(i: Ino, d: map<Name, Inode>, links: Edges, im: InodeMap) {
    && (forall n :: n in d <==> (i, n) in links)
    && (forall n :: n in d ==> links[(i, n)] in im && im[links[(i, n)]] == d[n])
  }

  /** `ps` holds exactly the names `links` has for inode `i`. */
  ghost predicate ParentsOf(i: Ino, ps: map<(Name, Ino), Inode>, links: Edges, im: InodeMap) {
    && (forall k :: k in ps <==> (k.1, k.0) in links && links[(k.1, k.0)] == i)
    && (forall k :: k in ps ==> k.1 in im && im[k.1] == ps[k])
  }

  ghost predicate LinksKnown(links: Edges, im: InodeMap) {
    forall k :: k in links ==> k.0 in im && im[k.0] != null && links[k] in im && im[links[k]] != null
  }

  lemma LoseLink(i: Ino, d: map<Name, Inode>, ps: map<(Name, Ino), Inode>, links: Edges, im: InodeMap, k: (Ino, Name))
    requires ChildrenOf(i, d, links, im) && ParentsOf(i, ps, links, im)
    ensures ChildrenOf(i, if i == k.0 then d - {k.1} else d, links - {k}, im)
    ensures ParentsOf(i, if k in links && links[k] == i then ps - {(k.1, k.0)} else ps, links - {k}, im)
  {
  }

  lemma GainLink(i: Ino, d: map<Name, Inode>, ps: map<(Name, Ino), Inode>, links: Edges, im: InodeMap,
                 k: (Ino, Name), p: Inode, c: Inode, j: Ino)
    requires ChildrenOf(i, d, links, im) && ParentsOf(i, ps, links, im)
    requires k !in links
    requires k.0 in im && im[k.0] == p
    requires j in im && im[j] == c
    ensures ChildrenOf(i, if i == k.0 then d[k.1 := c] else d, links[k := j], im)
    ensures ParentsOf(i, if i == j then ps[(k.1, k.0) := p] else ps, links[k := j], im)
  {
  }

  /** Links that avoid an inode number do not depend on what the number maps to. */
  lemma ForgetNumber(i: Ino, d: map<Name, Inode>, ps: map<(Name, Ino), Inode>, links: Edges, im: InodeMap, im': InodeMap, j: Ino)
    requires ChildrenOf(i, d, links, im) && ParentsOf(i, ps, links, im)
    requires forall k :: k in links ==> k.0 != j && links[k] != j
    requires forall l :: l in im && l != j ==> l in im' && im'[l] == im[l]
    ensures ChildrenOf(i, d, links, im') && ParentsOf(i, ps, links, im')
  {
  }

  lemma FewerLinksKnown(links: Edges, links': Edges, im: InodeMap)
    requires LinksKnown(links, im)
    requires SubEdges(links', links)
    ensures LinksKnown(links', im)
  {
  }

  lemma DetachFromParts(links: Edges, links': Edges, i: Ino)
    requires SubEdges(links', links)
    requires forall k :: k in links && links[k] != i && k.0 != i ==> k in links'
    requires forall k :: k in links' ==> links'[k] != i && k.0 != i
    ensures links' == Detach(links, i)
  {
  }

  lemma RemapLinksKnown(links: Edges, im: InodeMap, im': InodeMap, j: Ino)
    requires LinksKnown(links, im)
    requires forall k :: k in links ==> k.0 != j && links[k] != j
    requires forall l :: l in im && l != j ==> l in im' && im'[l] == im[l]
    ensures LinksKnown(links, im')
  {
  }

  lemma DetachAvoids(links: Edges, i: Ino)
    ensures SubEdges(Detach(links, i), links)
    ensures forall k :: k in Detach(links, i) ==> k.0 != i && Detach(links, i)[k] != i
  {
  }

  lemma UnknownUnlinked(links: Edges, im: InodeMap, i: Ino)
    requires LinksKnown(links, im)
    requires i !in im || im[i] == null
    ensures forall k :: k in links ==> k.0 != i && links[k] != i
    ensures Detach(links, i) == links
  {
  }

  lemma BareInode(i: Ino, links: Edges, im: InodeMap)
    requires forall k :: k in links ==> k.0 != i && links[k] != i
    ensures ChildrenOf(i, map[], links, im)
    ensures ParentsOf(i, map[], links, im)
  {
  }

  lemma LeastExists(d: set<Fd>)
    requires d != {}
    ensures exists f :: f in d && IsLeast(d, f)
  {
    var f :| f in d;
    var rest := d - {f};
    assert forall g :: g in d ==> g == f || g in rest;
    if rest == {} {
      assert IsLeast(d, f);
    } else {
      LeastExists(rest);
      var g :| g in rest && IsLeast(rest, g);
      var least := if f < g then f else g;
      assert forall h :: h in rest ==> g <= h;
      assert least in d && IsLeast(d, least);
    }
  }

  lemma OnlyLeast(d: set<Fd>, f: Fd)
    requires IsLeast(d, f)
    ensures forall g :: IsLeast(d, g) ==> g == f
  {
  }

  class Tracer {
    var root: Inode
    var inodeMap: InodeMap
    var fs: Tree
    var table: map<Fd, Ino>
    ghost var live: set<Inode>
    ghost var links: Edges
    ghost var refs: map<Ino, int>
    ghost var kept: map<Ino, set<Fd>>

    predicate Known(i: Ino)
      reads this`inodeMap
    {
      i in inodeMap && inodeMap[i] != null
    }

    predicate NoNulls()
      reads this`inodeMap
    {
      forall i | i in inodeMap :: inodeMap[i] != null
    }

    /** `inodeMap` finds every inode that has not been deleted, under its own number. */
    ghost predicate Mapped()
      reads this`root, this`inodeMap, this`live, live`ino
    {
      && root in live && root.ino == ROOT
      && (forall x :: x in live ==> x.ino in inodeMap && inodeMap[x.ino] == x)
      && (forall i :: i in inodeMap && inodeMap[i] != null ==> inodeMap[i] in live && inodeMap[i].ino == i)
    }

    ghost predicate Counted()
      reads this`inodeMap, this`refs, this`live, live`ino, live`ref
    {
      && (forall i :: i in refs <==> Known(i))
      && (forall x :: x in live && x.ino in refs ==> refs[x.ino] == x.ref as int)
    }

    ghost predicate Wired()
      reads this`inodeMap, this`links, this`live, live`ino, live`dentries, live`parents
    {
      && LinksKnown(links, inodeMap)
      && (forall x :: x in live ==> ChildrenOf(x.ino, x.dentries, links, inodeMap))
      && (forall x :: x in live ==> ParentsOf(x.ino, x.parents, links, inodeMap))
    }

    ghost predicate Described()
      reads this`kept, this`live, live`ino, live`fds
    {
      forall x :: x in live ==> x.fds == Numbers(kept, x.ino)
    }

    ghost predicate Valid()
      reads this, live
    {
      Mapped() && Counted() && Wired() && Described()
    }

    /** What the cache means. */
    ghost function State(): State
      reads this
    {
      CacheModel.State(fs, links, refs, Fds())
    }

    ghost function Fds(): Descriptors
      reads this`kept, this`table
    {
      Descriptors(kept, table)
    }

    constructor (tree: Tree)
      ensures Valid() && NoNulls() && State() == Mounted(tree) && fresh(live)
    {
      hide Valid;
      var r := new Inode(ROOT);
      r.ref := r.ref + 1;
      root := r;
      inodeMap := map[ROOT := r];
      fs := tree;
      live := {r};
      links := map[];
      refs := map[ROOT := 1];
      kept := map[ROOT := {}];
      table := map[];
      new;
      JustMounted();
    }

    lemma JustMounted()
      requires live == {root} && inodeMap == map[ROOT := root] && links == map[]
      requires refs == map[ROOT := 1] && kept == map[ROOT := {}]
      requires root.ino == ROOT && root.ref == 1 && root.fds == {} && root.dentries == map[] && root.parents == map[]
      ensures Valid()
    {
      hide ChildrenOf, ParentsOf;
      BareInode(ROOT, links, inodeMap);
    }

    /** The two directions agree: what a reader of the pointers sees. */
    lemma LinkSymmetry(p: Inode, n: Name, c: Inode)
      requires Valid()
      requires p in live && c in live
      ensures (n in p.dentries && p.dentries[n] == c) <==> ((n, p.ino) in c.parents && c.parents[(n, p.ino)] == p)
      ensures p.ino == c.ino ==> p == c
      ensures Known(p.ino) && inodeMap[p.ino] == p
    {
    }

    lemma SameNumber(x: Inode, y: Inode)
      requires Mapped()
      requires x in live && y in live
      ensures x.ino == y.ino <==> x == y
      ensures x.ino in inodeMap && inodeMap[x.ino] == x
    {
    }

    lemma ChildIsLive(p: Inode, n: Name)
      requires Valid()
      requires p in live && n in p.dentries
      ensures p.dentries[n] in live
      ensures (p.ino, n) in links && links[(p.ino, n)] == p.dentries[n].ino
    {
    }

    lemma ParentIsLive(c: Inode, k: (Name, Ino))
      requires Valid()
      requires c in live && k in c.parents
      ensures c.parents[k] in live && c.parents[k].ino == k.1
      ensures k.0 in c.parents[k].dentries && c.parents[k].dentries[k.0] == c
      ensures (k.1, k.0) in links && links[(k.1, k.0)] == c.ino
    {
      assert (k.1, k.0) in links;
    }

    lemma NobodyRefersTo(c: Inode)
      requires Valid()
      requires c !in live
      ensures forall x, n :: x in live && n in x.dentries ==> x.dentries[n] != c
      ensures forall x, k :: x in live && k in x.parents ==> x.parents[k] != c
    {
    }

    lemma Unnamed(c: Inode)
      requires Valid()
      requires c in live && c.parents == map[]
      ensures forall k :: k in links ==> links[k] != c.ino
    {
      forall k | k in links
        ensures links[k] != c.ino
      {
        assert (k.1, k.0) !in c.parents;
      }
    }

    lemma Childless(c: Inode)
      requires Valid()
      requires c in live && c.dentries == map[]
      ensures forall k :: k in links ==> k.0 != c.ino
    {
      forall k | k in links
        ensures k.0 != c.ino
      {
        assert k.1 !in c.dentries;
      }
    }

    lemma CachedIff(p: Inode, n: Name)
      requires Valid()
      requires p in live
      ensures n in p.dentries <==> (p.ino, n) in links
      ensures n in p.dentries ==> p.dentries[n] in live
    {
    }

    method RemoveDentry(pin: Inode, dname: Name)
      requires Valid()
      requires pin in live && dname in pin.dentries
      modifies pin`dentries, pin.Child(dname)`parents, this`links
      ensures Valid()
      ensures links == old(links) - {(pin.ino, dname)}
      ensures pin.dentries == old(pin.dentries) - {dname}
      ensures var c := old(pin.dentries[dname]); c.parents == old(c.parents) - {(dname, pin.ino)}
    {
      hide ChildrenOf, ParentsOf, LinksKnown, Mapped, Counted, Described;
      ChildIsLive(pin, dname);
      var c := pin.dentries[dname];
      pin.dentries := pin.dentries - {dname};
      c.parents := c.parents - {(dname, pin.ino)};
      links := links - {(pin.ino, dname)};
      FewerLinksKnown(old(links), links, inodeMap);
      forall x | x in live
        ensures ChildrenOf(x.ino, x.dentries, links, inodeMap)
        ensures ParentsOf(x.ino, x.parents, links, inodeMap)
      {
        SameNumber(x, pin);
        SameNumber(x, c);
        LoseLink(x.ino, old(x.dentries), old(x.parents), old(links), inodeMap, (pin.ino, dname));
      }
    }

    method SetDentry(parent: Inode, dname: Name, c: Inode)
      requires parent in live && c in live
      requires Valid() ==> (parent.ino, dname) !in links
      modifies parent`dentries, c`parents, this`links
      ensures old(Valid()) ==> Valid()
      ensures links == old(links)[(parent.ino, dname) := c.ino]
      ensures parent.dentries == old(parent.dentries)[dname := c]
    {
      hide ChildrenOf, ParentsOf, Mapped, Counted, Described;
      if Valid() {
        SameNumber(parent, c);
        SameNumber(c, parent);
      }
      parent.dentries := parent.dentries[dname := c];
      c.parents := c.parents[(dname, parent.ino) := parent];
      links := links[(parent.ino, dname) := c.ino];
      if old(Valid()) {
        forall x | x in live
          ensures ChildrenOf(x.ino, x.dentries, links, inodeMap)
          ensures ParentsOf(x.ino, x.parents, links, inodeMap)
        {
          SameNumber(x, parent);
          SameNumber(x, c);
          GainLink(x.ino, old(x.dentries), old(x.parents), old(links), inodeMap, (parent.ino, dname), parent, c, c.ino);
        }
      }
    }

    method AddDentry(parent: Inode, dname: Name, c: Inode)
      requires parent in live && c in live
      requires Valid() || dname !in parent.dentries
      modifies live`dentries, live`parents, this`links
      ensures old(Valid()) ==> Valid()
      ensures Mapped() == old(Mapped())
      ensures links == old(links)[(parent.ino, dname) := c.ino]
      ensures dname !in old(parent.dentries) ==> parent.dentries == old(parent.dentries)[dname := c]
    {
      hide Valid;
      if Valid() {
        CachedIff(parent, dname);
      }
      if dname in parent.dentries {
        RemoveDentry(parent, dname);
      }
      SetDentry(parent, dname, c);
    }

    /** Keeps exactly the numbers `d` with an inode. */
    method SetFds(c: Inode, d: set<Fd>)
      requires Mapped() && Counted() && Wired()
      requires c in live && forall x :: x in live && x != c ==> x.fds == Numbers(kept, x.ino)
      modifies c`fds, this`kept
      ensures Valid() && c.fds == d && kept == old(kept)[c.ino := d]
    {
      hide Counted, Wired;
      c.fds := d;
      kept := kept[c.ino := d];
    }

    method CloseFds(c: Inode)
      requires Valid()
      requires c in live
      modifies c`fds, this`kept, this`table
      ensures Valid() && c.fds == {} && Fds() == CloseAll(old(Fds()), c.ino)
    {
      hide Mapped, Counted, Wired;
      while c.fds != {}
        invariant Mapped() && Counted() && Wired() && kept == old(kept)
        invariant forall x :: x in live && x != c ==> x.fds == Numbers(kept, x.ino)
        invariant c.fds <= old(c.fds) && table == old(table) - (old(c.fds) - c.fds)
        decreases c.fds
      {
        var f :| f in c.fds;
        table := table - {f};
        c.fds := c.fds - {f};
      }
      SetFds(c, {});
    }

    method KeepFd(c: Inode, f: Fd, o: Ino)
      requires Valid()
      requires c in live
      modifies c`fds, this`kept, this`table
      ensures Valid() && Fds() == Keep(old(Fds()), c.ino, f, o)
    {
      hide Mapped, Counted, Wired;
      table := table[f := o];
      SetFds(c, c.fds + {f});
    }

    method DropFd(c: Inode, f: Fd)
      requires Valid()
      requires c in live
      modifies c`fds, this`kept, this`table
      ensures Valid() && Fds() == LetGo(old(Fds()), c.ino, f)
    {
      hide Mapped, Counted, Wired;
      SetFds(c, c.fds - {f});
      table := table - {f};
    }

    method UnlinkInode(c: Inode)
      requires Valid()
      requires c in live
      modifies live`dentries, live`parents, c`fds, this`links, this`kept, this`table
      ensures Valid()
      ensures links == Detach(old(links), c.ino) && Fds() == CloseAll(old(Fds()), c.ino)
      ensures c.parents == map[] && c.dentries == map[] && c.fds == {}
    {
      hide Valid, Detach;
      while c.parents != map[]
        invariant Valid() && Fds() == old(Fds())
        invariant forall k :: k in links ==> k in old(links) && links[k] == old(links)[k]
        invariant forall k :: k in old(links) && old(links)[k] != c.ino ==> k in links
        decreases c.parents.Keys
      {
        var k :| k in c.parents;
        ParentIsLive(c, k);
        RemoveDentry(c.parents[k], k.0);
      }
      Unnamed(c);
      while c.dentries != map[]
        invariant Valid() && Fds() == old(Fds())
        invariant c.parents == map[]
        invariant forall k :: k in links ==> k in old(links) && links[k] == old(links)[k] && links[k] != c.ino
        invariant forall k :: k in old(links) && old(links)[k] != c.ino && k.0 != c.ino ==> k in links
        decreases c.dentries.Keys
      {
        var n :| n in c.dentries;
        ChildIsLive(c, n);
        RemoveDentry(c, n);
      }
      Childless(c);
      DetachFromParts(old(links), links, c.ino);
      CloseFds(c);
    }

    /** The model forgets an inode that keeps no descriptors. */
    ghost method ForgetFds(c: Inode)
      requires Valid()
      requires c in live && c.fds == {}
      modifies this`kept
      ensures Valid() && kept == old(kept) - {c.ino}
    {
      hide Counted, Wired;
      kept := kept - {c.ino};
    }

    twostate lemma WiredWithout(c: Inode)
      requires old(Mapped() && Wired()) && c in old(live)
      requires forall k :: k in links ==> k.0 != c.ino && links[k] != c.ino
      requires inodeMap == old(inodeMap) - {c.ino} && live == old(live) - {c} && links == old(links)
      requires forall x :: x in old(live) ==> unchanged(x)
      ensures Wired()
    {
      hide ChildrenOf, ParentsOf, LinksKnown;
      RemapLinksKnown(links, old(inodeMap), inodeMap, c.ino);
      forall x | x in live
        ensures ChildrenOf(x.ino, x.dentries, links, inodeMap)
        ensures ParentsOf(x.ino, x.parents, links, inodeMap)
      {
        ForgetNumber(x.ino, x.dentries, x.parents, links, old(inodeMap), inodeMap, c.ino);
      }
    }

    method Unmap(c: Inode)
      requires Valid()
      requires c in live && c != root
      requires forall k :: k in links ==> k.0 != c.ino && links[k] != c.ino
      modifies this`inodeMap, this`live, this`refs
      ensures Valid()
      ensures live == old(live) - {c} && inodeMap == old(inodeMap) - {c.ino}
      ensures refs == old(refs) - {c.ino}
    {
      hide Wired;
      inodeMap := inodeMap - {c.ino};
      live := live - {c};
      refs := refs - {c.ino};
      WiredWithout(c);
    }

    method RemoveInode(c: Inode)
      requires Valid()
      requires c in live && c != root
      modifies live`dentries, live`parents, live`fds
      modifies this`links, this`inodeMap, this`live, this`refs, this`kept, this`table
      ensures Valid()
      ensures live == old(live) - {c} && inodeMap == old(inodeMap) - {c.ino}
      ensures links == Detach(old(links), c.ino) && refs == old(refs) - {c.ino}
      ensures Fds() == Descriptors(old(kept) - {c.ino}, old(table) - KeptBy(old(Fds()), c.ino))
      ensures forall x, n :: x in live && n in x.dentries ==> x.dentries[n] != c
      ensures forall x, k :: x in live && k in x.parents ==> x.parents[k] != c
    {
      hide Valid, Detach;
      UnlinkInode(c);
      DetachAvoids(old(links), c.ino);
      ForgetFds(c);
      Unmap(c);
      NobodyRefersTo(c);
    }

    twostate lemma WiredWith(new c: Inode, i: Ino)
      requires old(Mapped() && Wired()) && !old(Known(i))
      requires c.ino == i && c.dentries == map[] && c.parents == map[]
      requires inodeMap == old(inodeMap)[i := c] && live == old(live) + {c} && links == old(links)
      requires forall x :: x in old(live) ==> unchanged(x)
      ensures Wired()
    {
      hide ChildrenOf, ParentsOf, LinksKnown;
      UnknownUnlinked(links, old(inodeMap), i);
      RemapLinksKnown(links, old(inodeMap), inodeMap, i);
      forall x | x in live
        ensures ChildrenOf(x.ino, x.dentries, links, inodeMap)
        ensures ParentsOf(x.ino, x.parents, links, inodeMap)
      {
        if x == c {
          BareInode(i, links, inodeMap);
        } else {
          ForgetNumber(x.ino, x.dentries, x.parents, links, old(inodeMap), inodeMap, i);
        }
      }
    }

    twostate lemma BooksWith(new c: Inode, i: Ino)
      requires old(Valid()) && !old(Known(i))
      requires c.ino == i && c.ref == 0 && c.fds == {}
      requires root == old(root) && inodeMap == old(inodeMap)[i := c] && live == old(live) + {c}
      requires refs == old(refs)[i := 0] && kept == old(kept)[i := {}]
      requires forall x :: x in old(live) ==> unchanged(x)
      ensures Mapped() && Counted() && Described()
    {
      hide Wired;
    }

    /** A number that was mapped already loses its inode. */
    twostate lemma Shadowed(new c: Inode, i: Ino)
      requires old(Mapped()) && old(Known(i)) && c !in old(live)
      requires inodeMap == old(inodeMap)[i := c] && live == old(live) + {c}
      requires forall x :: x in old(live) ==> unchanged(x)
      ensures !Mapped()
    {
      assert old(inodeMap[i]) in live;
    }

    lemma UnknownDetached(i: Ino)
      requires Valid() && !Known(i)
      ensures i !in refs && Detach(links, i) == links
    {
      UnknownUnlinked(links, inodeMap, i);
    }

    /** Maps a new inode under number `i`, whatever the number was mapped to before. */
    method NewInode(i: Ino) returns (c: Inode)
      requires Valid()
      modifies this`inodeMap, this`live, this`refs, this`kept
      ensures fresh(c) && c.ino == i && c.ref == 0 && c.dentries == map[] && c.parents == map[] && c.fds == {}
      ensures live == old(live) + {c} && inodeMap == old(inodeMap)[i := c]
      ensures refs == old(refs)[i := 0] && kept == old(kept)[i := {}]
      ensures if old(Known(i)) then !Mapped() else Valid()
      ensures !old(Known(i)) ==> i !in old(refs) && Detach(links, i) == links
    {
      hide Mapped, Counted, Wired, Described, Detach;
      if !Known(i) {
        UnknownDetached(i);
      }
      c := new Inode(i);
      inodeMap := inodeMap[i := c];
      live := live + {c};
      refs := refs[i := 0];
      kept := kept[i := {}];
      if old(Known(i)) {
        Shadowed(c, i);
      } else {
        BooksWith(c, i);
        WiredWith(c, i);
      }
    }

    /** Overwrites the stat buffer of an inode with one that has the same number. */
    method Restat(c: Inode, i: Ino)
      requires Valid()
      requires c in live && c.ino == i
      modifies c`ino
      ensures Valid() && c.ino == i
    {
      hide ChildrenOf, ParentsOf, LinksKnown;
      c.ino := i;
    }

    /** Counts one entry reply. */
    method TakeRef(c: Inode)
      requires c in live && c.ref as int < INT32_MAX
      modifies c`ref, this`refs
      ensures c.ref == old(c.ref) + 1 && refs == old(refs)[c.ino := c.ref as int]
      ensures old(Valid()) ==> Valid()
      ensures Mapped() == old(Mapped())
    {
      hide ChildrenOf, ParentsOf, LinksKnown;
      c.ref := c.ref + 1;
      refs := refs[c.ino := c.ref as int];
    }

    method AddInode(parent: Inode, name: Name, i: Ino) returns (c: Inode)
      requires Valid()
      requires parent in live
      requires i in inodeMap ==> inodeMap[i] != null
      modifies live`dentries, live`parents, live`ino, live`fds
      modifies this`links, this`inodeMap, this`live, this`refs, this`kept, this`table
      ensures Valid()
      ensures c in live && c.ino == i && fresh(live - old(live))
      ensures inodeMap == if i in old(inodeMap) then old(inodeMap) else old(inodeMap)[i := c]
      ensures links == Detach(old(links), i)[(old(parent.ino), name) := i]
      ensures refs == old(refs)[i := Count(old(refs), i)] && Fds() == Reset(old(Fds()), i in old(refs), i)
    {
      hide Valid, Detach;
      StateFields(i);
      if i in inodeMap {
        c := inodeMap[i];
        UnlinkInode(c);
      } else {
        c := NewInode(i);
      }
      Restat(c, i);
      AddDentry(parent, name, c);
    }

    /**
     Builds the path of an inode from the names of its ancestors, or finds there is none.
     An inode with several names is reached by any one of them.
     */
    method MakeInodePath(c: Inode, ghost rank: map<Ino, nat>) returns (ok: bool, path: Path)
      requires Valid() && Inv(State())
      requires c in live
      requires Ranked(links, rank)
      ensures ok ==> Walk(links, ROOT, path) == Some(c.ino)
      ensures !ok && (c.ino in fs.dirs || NamesRooted(links, c.ino)) ==> !Rooted(links, c.ino)
      decreases Rank(rank, c.ino)
    {
      hide ChildrenOf, ParentsOf, LinksKnown, Rooted, Acyclic;
      if c.parents != map[] {
        var k :| k in c.parents;
        ParentIsLive(c, k);
        ok, path := MakeInodePath(c.parents[k], rank);
        if ok {
          WalkLast(links, ROOT, path, k.0);
          path := path + [k.0];
        } else if c.ino in fs.dirs {
          RootedByParent(State(), (k.1, k.0));
        }
      } else if c != root {
        Unnamed(c);
        NotRooted(links, c.ino);
        ok, path := false, [];
      } else {
        ok, path := true, [];
      }
    }

    /** The path handed to a system call, and what the call will find there. */
    method FindPath(c: Inode) returns (ok: bool, path: Path)
      requires Valid() && Inv(State())
      requires c in live
      ensures ok ==> Lstat(fs, path) == Some(c.ino) && Rooted(links, c.ino)
      ensures !ok && (c.ino in fs.dirs || NamesRooted(links, c.ino)) ==> !Rooted(links, c.ino)
    {
      hide ChildrenOf, ParentsOf, LinksKnown, NamesRooted;
      ghost var rank: map<Ino, nat> :| Ranked(fs.entries, rank);
      ok, path := MakeInodePath(c, rank);
      if ok {
        CachedPathResolves(State(), path, c.ino);
      }
    }

    /** The branch of a lookup for a name that is cached. */
    method LookupHit(c: Inode, i: Ino)
      requires Valid()
      requires c in live && c.ino == i && c.ref as int < INT32_MAX
      modifies c`ino, c`ref, this`refs
      ensures Valid() && c.ino == i && refs == old(refs)[i := old(c.ref) as int + 1]
    {
      hide Valid;
      Restat(c, i);
      TakeRef(c);
    }

    /** The branch of a lookup for a name that is not cached. */
    method LookupMiss(parent: Inode, name: Name, i: Ino)
      requires Valid()
      requires parent in live && name !in parent.dentries
      modifies this, live
      ensures fresh(live - old(live)) && fs == old(fs)
      ensures old(live) <= live && forall x :: x in old(live) ==> x.ino == old(x.ino)
      ensures Known(i) && inodeMap[i] !in old(live)
      ensures root == old(root) && parent.dentries == old(parent.dentries)[name := inodeMap[i]]
      ensures Valid() <==> !old(Known(i))
      ensures Valid() ==> links == old(links)[(old(parent.ino), name) := i] && refs == old(refs)[i := 1]
      ensures Valid() ==> Fds() == Reset(old(Fds()), false, i)
      ensures old(NoNulls()) ==> NoNulls()
    {
      hide ChildrenOf, ParentsOf, LinksKnown, Mapped, Counted, Described;
      var c := NewInode(i);
      AddDentry(parent, name, c);
      TakeRef(c);
    }

    lemma AttrIsLegal(s: State, q: Request, r: Reply)
      requires q.GetattrReq? || q.SetattrReq?
      requires r.Error? || r == Attr(q.ino)
      requires Admissible(s, q)
      ensures LegalStep(s, Served(q, r)) && Apply(s, Served(q, r)) == s
    {
    }

    lemma RootIsLive()
      requires Valid()
      ensures root in live && root.ino == ROOT && Known(ROOT) && inodeMap[ROOT] == root
    {
    }

    lemma RootIsRoot(c: Inode)
      requires Valid()
      requires c in live
      ensures c == root <==> c.ino == ROOT
      ensures Known(c.ino) && inodeMap[c.ino] == c
    {
    }

    lemma StateFields(i: Ino)
      requires Valid()
      ensures i in refs <==> Known(i)
      ensures Known(i) ==> inodeMap[i] in live && inodeMap[i].ino == i && refs[i] == inodeMap[i].ref as int
      ensures Known(i) ==> inodeMap[i].fds == KeptBy(Fds(), i)
    {
    }

    method Lookup(pino: Ino, name: Name, permitted: bool, fault: bool) returns (r: Reply)
      requires Valid() && Inv(State())
      requires Known(pino)
      requires CountFits(State(), LookupReq(pino, name))
      modifies this, live
      ensures fresh(live - old(live))
      ensures old(live) <= live && forall x :: x in old(live) ==> x.ino == old(x.ino)
      ensures Valid() <==> r.Error? || old(MissIsNew(State(), LookupReq(pino, name)))
      ensures !Valid() ==> r.Entry? && Known(r.ino) && inodeMap[r.ino] !in old(live)
      ensures root == old(root)
      ensures !Valid() ==> old(inodeMap[pino]).dentries == old(inodeMap[pino].dentries)[name := inodeMap[r.ino]]
      ensures Valid() ==> LegalStep(old(State()), Served(LookupReq(pino, name), r))
      ensures Valid() ==> State() == Apply(old(State()), Served(LookupReq(pino, name), r))
      ensures old(Settled(State(), LookupReq(pino, name))) ==> r == Expected(old(State()), LookupReq(pino, name), permitted, fault)
      ensures old(NoNulls()) ==> NoNulls()
      ensures !permitted ==> r == Error(EPERM) && State() == old(State())
      ensures fault ==> r.Error? && fs == old(fs) && links == old(links) && refs == old(refs)
    {
      hide Valid, NamesRooted, Rooted, WellFormed, Closed, FdsRefused, Guards, GuardFds, TreeAfter, Target, LinksAfter,
           RefsAfter, FdsAfter;
      LookupStep(State(), LookupReq(pino, name));
      RefusalIsHarmless(State(), LookupReq(pino, name));
      StateFields(pino);
      var parent := inodeMap[pino];
      CachedIff(parent, name);
      if !permitted {
        return Error(EPERM);
      }
      var ok, path := FindPath(parent);
      if !ok {
        return Error(ENOENT);
      }
      WalkLast(fs.entries, ROOT, path, name);
      var st := if fault then None else Lstat(fs, path + [name]);
      if st == None {
        return Error(if fault then EIO else ENOENT);
      }
      StateFields(st.value);
      if name in parent.dentries {
        ChildIsLive(parent, name);
        RootIsRoot(parent.dentries[name]);
        LookupHit(parent.dentries[name], st.value);
      } else {
        LookupMiss(parent, name, st.value);
      }
      r := Entry(st.value);
    }

    /**
     `getattr`: overwrites the status of an inode with that of the file its first descriptor is
     open on by now, or with what is found by path if it keeps none.
     */
    method Getattr(ino: Ino, fault: bool) returns (r: Reply)
      requires Valid() && Inv(State())
      requires Known(ino)
      modifies live`ino
      ensures r.Attr? || r.Error?
      ensures Valid() <==> r.Error? || r.ino == ino
      ensures inodeMap[ino].ino == if r.Error? then ino else r.ino
      ensures Valid() <==> r.Error? || StatsItself(State(), GetattrReq(ino))
      ensures forall f :: IsLeast(KeptBy(Fds(), ino), f) ==>
                r == if fault then Error(EIO) else if f !in table then Error(EBADF)
                     else if ino == ROOT then Attr(ROOT) else Attr(table[f])
      ensures Valid() && Settled(State(), GetattrReq(ino)) ==> r == Expected(State(), GetattrReq(ino), true, fault)
      ensures fault ==> r.Error?
    {
      hide Wired, NamesRooted, Rooted, WellFormed, Closed, Counted, Described;
      StateFields(ino);
      var c := inodeMap[ino];
      var path, st := [], 0;
      if c.fds == {} {
        var ok;
        ok, path := FindPath(c);
        if !ok {
          return Error(ENOENT);
        }
        if fault {
          return Error(EIO);
        }
        st := Lstat(fs, path).value;
      } else {
        LeastExists(c.fds);
        var f :| f in c.fds && IsLeast(c.fds, f);
        OnlyLeast(c.fds, f);
        if fault {
          return Error(EIO);
        }
        if f !in table {
          return Error(EBADF);
        }
        st := table[f];
      }
      if ino == ROOT {
        st := ROOT;
      }
      if st == ino {
        Restat(c, st);
      } else {
        c.ino := st;
      }
      r := Attr(st);
    }

    /**
     `setattr` with a path, which it uses if no descriptor is kept or times are to be set.
     Otherwise its final `lstat` is given an empty path, fails, and leaves the status alone.
     */
    method Setattr(ino: Ino, change: bool, times: bool, restat: bool, permitted: bool, fault: bool) returns (r: Reply)
      requires Valid() && Inv(State())
      requires Known(ino)
      modifies live`ino
      ensures Valid()
      ensures r.Error? || r == Attr(ino)
      ensures var req := SetattrReq(ino, change, times, restat);
              Settled(State(), req) ==> r == Expected(State(), req, permitted, fault)
      ensures !permitted ==> (r == Error(EPERM) || r == Error(ENOENT)) && State() == old(State())
      ensures fault ==> r.Error? && fs == old(fs) && links == old(links) && refs == old(refs)
      ensures !times && change && (exists f :: IsLeast(KeptBy(Fds(), ino), f) && f !in table) ==> r.Error?
    {
      hide Valid, NamesRooted, Rooted, WellFormed, Closed;
      StateFields(ino);
      var c := inodeMap[ino];
      var byPath := c.fds == {} || times;
      var path := [];
      if byPath {
        var ok;
        ok, path := FindPath(c);
        if !ok {
          return Error(ENOENT);
        }
      }
      if !permitted {
        return Error(EPERM);
      }
      if fault {
        return Error(EIO);
      }
      if !byPath && change {
        LeastExists(c.fds);
        var f :| f in c.fds && IsLeast(c.fds, f);
        OnlyLeast(c.fds, f);
        if f !in table {
          return Error(EBADF);
        }
      }
      if byPath && restat {
        Restat(c, Lstat(fs, path).value);
      }
      if ino == ROOT {
        Restat(c, ROOT);
      }
      r := Attr(c.ino);
    }

    /** `open`: the descriptor is kept with the inode that was asked for. */
    method OpenFile(ino: Ino, fd: Fd, file: Ino, permitted: bool, fault: bool) returns (r: Reply)
      requires Valid() && Inv(State())
      requires Known(ino)
      requires FreshFd(State(), OpenReq(ino, fd, file))
      modifies this`kept, this`table, live`fds
      ensures Valid()
      ensures LegalStep(old(State()), Served(OpenReq(ino, fd, file), r))
      ensures State() == Apply(old(State()), Served(OpenReq(ino, fd, file), r))
      ensures old(Settled(State(), OpenReq(ino, fd, file))) ==> r == Expected(old(State()), OpenReq(ino, fd, file), permitted, fault)
      ensures !permitted ==> (r == Error(EPERM) || r == Error(ENOENT)) && State() == old(State())
      ensures fault ==> r.Error? && fs == old(fs) && links == old(links) && refs == old(refs)
    {
      hide Valid, NamesRooted, Rooted, WellFormed, Closed, FdsRefused, Guards, GuardFds;
      RefusalIsHarmless(State(), OpenReq(ino, fd, file));
      StateFields(ino);
      var c := inodeMap[ino];
      var ok, path := FindPath(c);
      if !ok {
        return Error(ENOENT);
      }
      if !permitted {
        return Error(EPERM);
      }
      if fault {
        return Error(EIO);
      }
      KeepFd(c, fd, file);
      r := Done;
    }

    /** `release`: lets go of the descriptor, then closes it. */
    method ReleaseFile(ino: Ino, fd: Fd, fault: bool) returns (r: Reply)
      requires Valid()
      requires Known(ino)
      modifies this`kept, this`table, live`fds
      ensures Valid()
      ensures LegalStep(old(State()), Served(ReleaseReq(ino, fd), r))
      ensures State() == Apply(old(State()), Served(ReleaseReq(ino, fd), r))
      ensures r == Expected(old(State()), ReleaseReq(ino, fd), true, fault)
      ensures r == Done <==> !fault && fd in old(table)
      ensures fault ==> r.Error? && fs == old(fs) && links == old(links) && refs == old(refs)
    {
      hide Valid;
      StateFields(ino);
      var isOpen := fd in table;
      DropFd(inodeMap[ino], fd);
      r := if fault then Error(EIO) else if isOpen then Done else Error(EBADF);
    }

    // What a handler does to the cache, in terms of the cache's meaning.

    /** The file system changes; the cache does not. */
    method SetTree(t: Tree)
      requires Valid()
      modifies this`fs
      ensures fs == t && Valid()
    {
      hide ChildrenOf, ParentsOf, LinksKnown;
      fs := t;
    }

    method EnterInode(parent: Inode, name: Name, i: Ino) returns (c: Inode)
      requires Valid()
      requires parent in live
      requires i in inodeMap ==> inodeMap[i] != null
      requires Count(refs, i) < INT32_MAX
      modifies this, live
      ensures Valid() && c in live && c.ino == i && fresh(live - old(live)) && fs == old(fs)
      ensures links == Detach(old(links), i)[(old(parent.ino), name) := i]
      ensures refs == old(refs)[i := Count(old(refs), i) + 1] && Fds() == Reset(old(Fds()), i in old(refs), i)
      ensures old(NoNulls()) ==> NoNulls()
    {
      hide Valid, Detach;
      c := AddInode(parent, name, i);
      RootIsRoot(c);
      StateFields(i);
      TakeRef(c);
    }

    /** The system opens a file. */
    method OpenAs(f: Fd, o: Ino)
      requires Valid()
      modifies this`table
      ensures Valid() && table == old(table)[f := o]
    {
      hide Mapped, Counted, Wired, Described;
      table := table[f := o];
    }

    method InsertFd(c: Inode, f: Fd)
      requires Valid()
      requires c in live
      modifies c`fds, this`kept
      ensures Valid() && kept == old(kept)[c.ino := old(c.fds) + {f}]
    {
      hide Mapped, Counted, Wired;
      SetFds(c, c.fds + {f});
    }

    method EnterOpen(parent: Inode, name: Name, i: Ino, fd: Fd, file: Ino)
      requires Valid()
      requires parent in live
      requires i in inodeMap ==> inodeMap[i] != null
      requires Count(refs, i) < INT32_MAX
      modifies this, live
      ensures Valid() && fresh(live - old(live)) && fs == old(fs)
      ensures links == Detach(old(links), i)[(old(parent.ino), name) := i]
      ensures refs == old(refs)[i := Count(old(refs), i) + 1]
      ensures Fds() == CreateFds(old(Fds()), i in old(refs), i, fd, file)
      ensures old(NoNulls()) ==> NoNulls()
    {
      hide Valid, Detach, Count, Reset;
      OpenAs(fd, file);
      ghost var after := Fds();
      var c := EnterInode(parent, name, i);
      RootIsRoot(c);
      StateFields(i);
      ResetIsBare(after, i in old(refs), i);
      assert c.fds == {};
      InsertFd(c, fd);
      assert after == old(Fds()).(table := old(table)[fd := file]);
      assert {} + {fd} == {fd};
    }

    method DropName(pin: Inode, name: Name)
      requires Valid()
      requires pin in live
      modifies this`links, live`dentries, live`parents
      ensures Valid()
      ensures links == old(links) - {(pin.ino, name)}
    {
      hide Valid;
      CachedIff(pin, name);
      if name in pin.dentries {
        RemoveDentry(pin, name);
      }
      assert links == old(links) - {(pin.ino, name)};
    }

    method EnterLink(parent: Inode, name: Name, c: Inode)
      requires Valid()
      requires parent in live && c in live && c.ref as int < INT32_MAX
      modifies this`links, this`refs, live`dentries, live`parents, live`ref
      ensures Valid()
      ensures links == old(links)[(parent.ino, name) := c.ino] && refs == old(refs)[c.ino := old(c.ref) as int + 1]
    {
      hide Valid;
      AddDentry(parent, name, c);
      TakeRef(c);
    }

    method MoveName(pin: Inode, name: Name, newPin: Inode, newName: Name)
      requires Valid()
      requires pin in live && newPin in live
      modifies this`links, live`dentries, live`parents
      ensures Valid()
      ensures links == if (pin.ino, name) in old(links)
                       then old(links)[(newPin.ino, newName) := old(links)[(pin.ino, name)]] - {(pin.ino, name)}
                       else old(links)
    {
      hide Valid;
      CachedIff(pin, name);
      if name in pin.dentries {
        ChildIsLive(pin, name);
        AddDentry(newPin, newName, pin.dentries[name]);
        CachedIff(pin, name);
        RemoveDentry(pin, name);
      }
    }

    // The remaining handlers.

    /** The map's subscript operator: a number that is missing is entered with a null pointer. */
    method Subscript(ino: Ino) returns (c: Inode?)
      requires Valid()
      modifies this`inodeMap
      ensures Valid()
      ensures inodeMap == if ino in old(inodeMap) then old(inodeMap) else old(inodeMap)[ino := null]
      ensures c == inodeMap[ino]
    {
      hide ChildrenOf, ParentsOf, LinksKnown;
      if ino !in inodeMap {
        inodeMap := inodeMap[ino := null];
        UnknownUnlinked(links, old(inodeMap), ino);
        RemapLinksKnown(links, old(inodeMap), inodeMap, ino);
        forall x | x in live
          ensures ChildrenOf(x.ino, x.dentries, links, inodeMap)
          ensures ParentsOf(x.ino, x.parents, links, inodeMap)
        {
          ForgetNumber(x.ino, x.dentries, x.parents, links, old(inodeMap), inodeMap, ino);
        }
      }
      c := inodeMap[ino];
    }

    method SetRef(c: Inode, n: int32)
      requires Valid()
      requires c in live
      modifies c`ref, this`refs
      ensures Valid() && c.ref == n && refs == old(refs)[c.ino := n as int]
    {
      hide ChildrenOf, ParentsOf, LinksKnown;
      c.ref := n;
      refs := refs[c.ino := n as int];
    }

    method Release(c: Inode, nlookup: nat)
      requires Valid()
      requires c in live && c != root
      modifies this, live
      ensures Valid() && live <= old(live)
      ensures State() == Step(old(State()), ForgetReq(old(c.ino), nlookup))
      ensures old(NoNulls()) ==> NoNulls()
    {
      hide Valid, Detach;
      RootIsRoot(c);
      StateFields(c.ino);
      SetRef(c, Narrow(c.ref as int - nlookup));
      if c.ref <= 0 {
        RemoveInode(c);
      }
    }

    method Forget(ino: Ino, nlookup: nat)
      requires Valid()
      modifies this, live
      ensures Valid() && live <= old(live)
      ensures State() == Step(old(State()), ForgetReq(ino, nlookup))
      ensures !old(Known(ino)) && ino != ROOT ==> ino in inodeMap && inodeMap[ino] == null
      ensures old(NoNulls()) ==> (NoNulls() <==> ino == ROOT || old(Known(ino)))
    {
      hide Valid, Detach;
      if ino != ROOT {
        StateFields(ino);
        var c := Subscript(ino);
        StateFields(ino);
        if c != null {
          RootIsRoot(c);
          Release(c, nlookup);
        }
      }
    }

    /** `mknod`, `mkdir` and `symlink`. */
    method Make(pino: Ino, name: Name, isDir: bool, newIno: Ino, permitted: bool, fault: bool) returns (r: Reply)
      requires Valid() && Inv(State())
      requires Known(pino)
      requires FreshNumber(fs, MakeReq(pino, name, isDir, newIno))
      requires newIno in inodeMap ==> inodeMap[newIno] != null
      requires Count(refs, newIno) < INT32_MAX
      modifies this, live
      ensures Valid() && fresh(live - old(live))
      ensures LegalStep(old(State()), Served(MakeReq(pino, name, isDir, newIno), r))
      ensures State() == Apply(old(State()), Served(MakeReq(pino, name, isDir, newIno), r))
      ensures old(Settled(State(), MakeReq(pino, name, isDir, newIno))) ==>
                r == Expected(old(State()), MakeReq(pino, name, isDir, newIno), permitted, fault)
      ensures old(NoNulls()) ==> NoNulls()
      ensures !permitted ==> (r == Error(EPERM) || r == Error(ENOENT)) && State() == old(State())
      ensures fault ==> r.Error? && fs == old(fs) && links == old(links) && refs == old(refs)
    {
      hide Valid, NamesRooted, Rooted, WellFormed, Closed, Detach, Linked, FileSystem.Make, MakeAt, Lstat, FdsRefused,
           Guards, GuardFds;
      RefusalIsHarmless(State(), MakeReq(pino, name, isDir, newIno));
      StateFields(pino);
      var pin := inodeMap[pino];
      var ok, path := FindPath(pin);
      if !ok {
        return Error(ENOENT);
      }
      if !permitted {
        return Error(EPERM);
      }
      MakeResolves(fs, path, pino, name, newIno, isDir);
      var res := if fault then Err(EIO) else FileSystem.Make(fs, path + [name], newIno, isDir);
      if res.Err? {
        return Error(res.error);
      }
      SetTree(res.value);
      var st := Lstat(fs, path + [name]).value;
      var _ := EnterInode(pin, name, st);
      r := Entry(st);
    }

    method Create(pino: Ino, name: Name, excl: bool, newIno: Ino, through: Option<(Ino, Name)>, fd: Fd,
                  permitted: bool, fault: bool)
      returns (r: Reply)
      requires Valid() && Inv(State())
      requires Known(pino)
      requires FreshNumber(fs, CreateReq(pino, name, excl, newIno, through, fd))
      requires var i := Target(fs, CreateReq(pino, name, excl, newIno, through, fd)).value; i in inodeMap ==> inodeMap[i] != null
      requires CountFits(State(), CreateReq(pino, name, excl, newIno, through, fd))
      requires FreshFd(State(), CreateReq(pino, name, excl, newIno, through, fd))
      modifies this, live
      ensures Valid() && fresh(live - old(live))
      ensures LegalStep(old(State()), Served(CreateReq(pino, name, excl, newIno, through, fd), r))
      ensures State() == Apply(old(State()), Served(CreateReq(pino, name, excl, newIno, through, fd), r))
      ensures old(Settled(State(), CreateReq(pino, name, excl, newIno, through, fd))) ==>
                r == Expected(old(State()), CreateReq(pino, name, excl, newIno, through, fd), permitted, fault)
      ensures old(NoNulls()) ==> NoNulls()
      ensures !permitted ==> (r == Error(EPERM) || r == Error(ENOENT)) && State() == old(State())
      ensures fault ==> r.Error? && fs == old(fs) && links == old(links) && refs == old(refs)
    {
      hide Valid, NamesRooted, Rooted, WellFormed, Closed, Detach, Linked, FileSystem.Open, OpenAt, Opened, OpenedAt,
           Lstat, FdsRefused, Guards, GuardFds;
      RefusalIsHarmless(State(), CreateReq(pino, name, excl, newIno, through, fd));
      StateFields(pino);
      var pin := inodeMap[pino];
      var ok, path := FindPath(pin);
      if !ok {
        return Error(ENOENT);
      }
      if !permitted {
        return Error(EPERM);
      }
      CreateResolves(fs, path, pino, name, excl, newIno, through);
      var res := if fault then Err(EIO) else FileSystem.Open(fs, path + [name], excl, newIno, through);
      if res.Err? {
        return Error(res.error);
      }
      var file := Opened(fs, path + [name], newIno, through);
      SetTree(res.value);
      var st := Lstat(fs, path + [name]).value;
      EnterOpen(pin, name, st, fd, file);
      r := Entry(st);
    }

    /** An unlink of a cached name opens the file first, if its inode keeps no descriptor yet. */
    method KeepGuard(pin: Inode, name: Name, guard: Option<(Fd, Ino)>)
      requires Valid()
      requires pin in live
      modifies this`kept, this`table, live`fds
      ensures Valid()
      ensures Fds() == GuardFds(old(State()), UnlinkReq(pin.ino, name, guard))
    {
      hide Valid;
      CachedIff(pin, name);
      if name in pin.dentries {
        ChildIsLive(pin, name);
        var c := pin.dentries[name];
        RootIsRoot(c);
        StateFields(c.ino);
        if c.fds == {} && guard.Some? {
          KeepFd(c, guard.value.0, guard.value.1);
        }
      }
    }

    /** The calls of an unlink that has a path and the permission. */
    method RemoveFile(pin: Inode, path: Path, name: Name, guard: Option<(Fd, Ino)>, fault: bool) returns (res: Result<Tree>)
      requires Valid() && Inv(State())
      requires pin in live && Lstat(fs, path) == Some(pin.ino)
      modifies this`fs, this`kept, this`table, this`links, live`fds, live`dentries, live`parents
      ensures Valid()
      ensures res == if fault then Err(EIO) else UnlinkAt(old(fs), pin.ino, name)
      ensures Fds() == GuardFds(old(State()), UnlinkReq(pin.ino, name, guard))
      ensures res.Err? ==> fs == old(fs) && links == old(links)
      ensures res.Ok? ==> fs == res.value && links == old(links) - {(pin.ino, name)}
    {
      hide Valid, Inv, GuardFds, FileSystem.Unlink, UnlinkAt, Lstat;
      UnlinkResolves(fs, path, pin.ino, name);
      KeepGuard(pin, name, guard);
      res := if fault then Err(EIO) else FileSystem.Unlink(fs, path + [name]);
      if res.Ok? {
        SetTree(res.value);
        DropName(pin, name);
      }
    }

    method Unlink(pino: Ino, name: Name, guard: Option<(Fd, Ino)>, permitted: bool, fault: bool) returns (r: Reply)
      requires Valid() && Inv(State())
      requires Known(pino)
      requires FreshFd(State(), UnlinkReq(pino, name, guard))
      modifies this, live
      ensures Valid() && live == old(live)
      ensures LegalStep(old(State()), Served(UnlinkReq(pino, name, guard), r))
      ensures State() == Apply(old(State()), Served(UnlinkReq(pino, name, guard), r))
      ensures old(Settled(State(), UnlinkReq(pino, name, guard))) ==>
                r == Expected(old(State()), UnlinkReq(pino, name, guard), permitted, fault)
      ensures inodeMap == old(inodeMap)
      ensures !permitted ==> (r == Error(EPERM) || r == Error(ENOENT)) && State() == old(State())
      ensures fault ==> r.Error? && fs == old(fs) && links == old(links) && refs == old(refs)
      ensures (pino, name) !in old(links) || old(KeptBy(Fds(), links[(pino, name)])) != {} || guard == None ==>
                Fds() == old(Fds())
      ensures (pino, name) in old(links) && old(KeptBy(Fds(), links[(pino, name)])) == {} && guard.Some? &&
              permitted && r != Error(ENOENT) ==>
                Fds() == Keep(old(Fds()), old(links)[(pino, name)], guard.value.0, guard.value.1)
    {
      hide Valid, NamesRooted, Rooted, WellFormed, Closed, Guards, GuardFds, FileSystem.Unlink, UnlinkAt, Lstat,
           TreeAfter, Target, LinksAfter, RefsAfter, FdsAfter, Keep;
      UnlinkStep(State(), UnlinkReq(pino, name, guard));
      StateFields(pino);
      var pin := inodeMap[pino];
      var ok, path := FindPath(pin);
      if !ok {
        return Error(ENOENT);
      }
      if !permitted {
        return Error(EPERM);
      }
      var res := RemoveFile(pin, path, name, guard, fault);
      r := if res.Err? then Error(res.error) else Done;
    }

    method Rmdir(pino: Ino, name: Name, permitted: bool, fault: bool) returns (r: Reply)
      requires Valid() && Inv(State())
      requires Known(pino)
      modifies this, live
      ensures Valid() && live == old(live)
      ensures LegalStep(old(State()), Served(RmdirReq(pino, name), r))
      ensures State() == Apply(old(State()), Served(RmdirReq(pino, name), r))
      ensures old(Settled(State(), RmdirReq(pino, name))) ==> r == Expected(old(State()), RmdirReq(pino, name), permitted, fault)
      ensures inodeMap == old(inodeMap)
      ensures !permitted ==> (r == Error(EPERM) || r == Error(ENOENT)) && State() == old(State())
      ensures fault ==> r.Error? && fs == old(fs) && links == old(links) && refs == old(refs)
    {
      hide Valid, NamesRooted, Rooted, WellFormed, Closed, FdsRefused, Guards, GuardFds;
      RefusalIsHarmless(State(), RmdirReq(pino, name));
      StateFields(pino);
      var pin := inodeMap[pino];
      var ok, path := FindPath(pin);
      if !ok {
        return Error(ENOENT);
      }
      if !permitted {
        return Error(EPERM);
      }
      LastComponent(path, name);
      var res := if fault then Err(EIO) else FileSystem.Rmdir(fs, path + [name]);
      if res.Err? {
        return Error(res.error);
      }
      SetTree(res.value);
      DropName(pin, name);
      r := Done;
    }

    /** Every step but this one keeps the cache sound; this one keeps it so exactly if `RenameVisible`. */
    method Rename(pino: Ino, name: Name, newPino: Ino, newName: Name, permitted: bool, fault: bool) returns (r: Reply)
      requires Valid() && Inv(State())
      requires Known(pino) && Known(newPino)
      modifies this, live
      ensures Valid() && live == old(live)
      ensures r.Error? ==> State() == old(State())
      ensures !r.Error? ==> r == Done && TreeAfter(old(fs), RenameReq(pino, name, newPino, newName)).Ok?
      ensures !r.Error? ==> State() == Step(old(State()), RenameReq(pino, name, newPino, newName))
      ensures Sound(State()) <==> r.Error? || old(RenameVisible(State(), RenameReq(pino, name, newPino, newName)))
      ensures old(Settled(State(), RenameReq(pino, name, newPino, newName))) ==>
                r == Expected(old(State()), RenameReq(pino, name, newPino, newName), permitted, fault)
      ensures inodeMap == old(inodeMap)
      ensures !permitted ==> (r == Error(EPERM) || r == Error(ENOENT)) && State() == old(State())
      ensures fault ==> r.Error? && fs == old(fs) && links == old(links) && refs == old(refs)
    {
      hide Valid, NamesRooted, Rooted, WellFormed, Closed, Beneath, Sound, RenameVisible;
      ghost var req := RenameReq(pino, name, newPino, newName);
      StateFields(pino);
      StateFields(newPino);
      var pin := inodeMap[pino];
      var newPin := inodeMap[newPino];
      var ok, path := FindPath(pin);
      var newOk, newPath := FindPath(newPin);
      if !ok || !newOk {
        return Error(ENOENT);
      }
      if !permitted {
        return Error(EPERM);
      }
      RenameResolves(fs, path, pino, name, newPath, newPino, newName);
      var res := if fault then Err(EIO) else FileSystem.Rename(fs, path + [name], newPath + [newName]);
      if res.Err? {
        return Error(res.error);
      }
      RenameSoundIff(State(), req);
      SetTree(res.value);
      MoveName(pin, name, newPin, newName);
      r := Done;
    }

    method Link(ino: Ino, newPino: Ino, newName: Name, permitted: bool, fault: bool) returns (r: Reply)
      requires Valid() && Inv(State())
      requires Known(ino) && Known(newPino)
      requires CountFits(State(), LinkReq(ino, newPino, newName))
      modifies this, live
      ensures Valid() && live == old(live)
      ensures LegalStep(old(State()), Served(LinkReq(ino, newPino, newName), r))
      ensures State() == Apply(old(State()), Served(LinkReq(ino, newPino, newName), r))
      ensures old(Settled(State(), LinkReq(ino, newPino, newName))) ==>
                r == Expected(old(State()), LinkReq(ino, newPino, newName), permitted, fault)
      ensures inodeMap == old(inodeMap)
      ensures !permitted ==> (r == Error(EPERM) || r == Error(ENOENT)) && State() == old(State())
      ensures fault ==> r.Error? && fs == old(fs) && links == old(links) && refs == old(refs)
    {
      hide Valid, NamesRooted, Rooted, WellFormed, Closed, Detach, Beneath, Linked, FileSystem.Link, LinkAt, Lstat,
           FdsRefused, Guards, GuardFds, TreeAfter, Target, LinksAfter, RefsAfter, FdsAfter, Settled, Expected,
           PathsKnown, OnClosed;
      LinkReply(State(), LinkReq(ino, newPino, newName), permitted, fault);
      LinkStep(State(), LinkReq(ino, newPino, newName));
      RefusalIsHarmless(State(), LinkReq(ino, newPino, newName));
      StateFields(ino);
      StateFields(newPino);
      var c := inodeMap[ino];
      var newPin := inodeMap[newPino];
      var ok, path := FindPath(c);
      var newOk, newPath := FindPath(newPin);
      if !ok || !newOk {
        return Error(ENOENT);
      }
      if !permitted {
        return Error(EPERM);
      }
      LinkResolves(fs, path, ino, newPath, newPino, newName);
      var res := if fault then Err(EIO) else FileSystem.Link(fs, path, newPath + [newName]);
      if res.Err? {
        return Error(res.error);
      }
      SetTree(res.value);
      var st := Lstat(fs, newPath + [newName]).value;
      EnterLink(newPin, newName, c);
      Restat(c, st);
      r := Entry(st);
    }

    method Dispatch(call: Call) returns (r: Reply)
      requires Valid() && Inv(State()) && NoNulls()
      requires Admissible(State(), call.request)
      modifies this, live
      ensures Valid() && Inv(State()) && NoNulls() && fresh(live - old(live))
      ensures LegalStep(old(State()), Served(call.request, r))
      ensures State() == Apply(old(State()), Served(call.request, r))
      ensures old(Settled(State(), call.request)) ==> r == Expected(old(State()), call.request, call.permitted, call.fault)
      ensures !call.permitted && !call.request.ForgetReq? && !call.request.GetattrReq? && !call.request.ReleaseReq? ==>
                (r == Error(EPERM) || r == Error(ENOENT)) && State() == old(State())
      ensures call.fault && !call.request.ForgetReq? ==>
                r.Error? && State().(fds := old(State()).fds) == old(State())
    {
      hide Valid, Inv, Settled, Expected, Detach, TreeAfter, Answer, Linked, LinksAfter, RefsAfter;
      match call.request {
      case LookupReq(p, n) =>
        StateFields(p);
        r := Lookup(p, n, call.permitted, call.fault);
      case ForgetReq(i, k) =>
        StateFields(i);
        Forget(i, k);
        r := Done;
        ForgetIsDone(old(State()), i, k, call.permitted, call.fault);
      case MakeReq(p, n, isDir, i) =>
        StateFields(p);
        r := Make(p, n, isDir, i, call.permitted, call.fault);
      case CreateReq(p, n, excl, i, via, fd) =>
        StateFields(p);
        r := Create(p, n, excl, i, via, fd, call.permitted, call.fault);
      case UnlinkReq(p, n, guard) =>
        StateFields(p);
        r := Unlink(p, n, guard, call.permitted, call.fault);
      case RmdirReq(p, n) =>
        StateFields(p);
        r := Rmdir(p, n, call.permitted, call.fault);
      case RenameReq(p, n, q, m) =>
        StateFields(p);
        StateFields(q);
        r := Rename(p, n, q, m, call.permitted, call.fault);
        RenameIsDone(old(fs), call.request);
      case LinkReq(i, q, m) =>
        StateFields(i);
        StateFields(q);
        r := Link(i, q, m, call.permitted, call.fault);
      case GetattrReq(i) =>
        StateFields(i);
        r := Getattr(i, call.fault);
        AttrIsLegal(old(State()), call.request, r);
        PermissionUnasked(old(State()), call.request, call.permitted, call.fault);
      case SetattrReq(i, change, times, restat) =>
        StateFields(i);
        r := Setattr(i, change, times, restat, call.permitted, call.fault);
        AttrIsLegal(old(State()), call.request, r);
      case OpenReq(i, fd, file) =>
        StateFields(i);
        r := OpenFile(i, fd, file, call.permitted, call.fault);
      case ReleaseReq(i, fd) =>
        StateFields(i);
        r := ReleaseFile(i, fd, call.fault);
        PermissionUnasked(old(State()), call.request, call.permitted, call.fault);
      }
      StepKeepsInv(old(State()), Served(call.request, r));
    }

    /** The session loop, for any number of requests: every run is a legal run of the cache model. */
    method Serve(kernel: Kernel, n: nat) returns (run: seq<Served>)
      requires Valid() && Inv(State()) && NoNulls()
      requires PromisesKept(State(), kernel)
      modifies this, live
      ensures Valid() && Inv(State()) && NoNulls()
      ensures |run| == n && Follows(kernel, run)
      ensures Legal(old(State()), run) && State() == After(old(State()), run)
      ensures Dictated(old(State()), kernel, run) && DenialsKept(old(State()), kernel, run)
    {
      hide Valid, State, Inv, LegalStep, Apply, Admissible, Follows, Settled, Expected;
      run := [];
      FollowsNothing(kernel);
      for k := 0 to n
        invariant Valid() && Inv(State()) && NoNulls() && fresh(live - old(live))
        invariant |run| == k && Follows(kernel, run)
        invariant Legal(old(State()), run) && State() == After(old(State()), run)
        invariant Dictated(old(State()), kernel, run) && DenialsKept(old(State()), kernel, run)
      {
        var call := kernel(run);
        var r := Dispatch(call);
        LegalNext(old(State()), run, Served(call.request, r));
        DictatedNext(old(State()), kernel, run, Served(call.request, r));
        DenialsNext(old(State()), kernel, run, Served(call.request, r));
        FollowsNext(kernel, run, Served(call.request, r));
        run := run + [Served(call.request, r)];
      }
    }
  }

  /**
   Mounting over a tree without hard links and serving a considerate kernel: the cache is
   consistent and sound after any number of requests, and every descriptor that an inode keeps is
   open on it.  If the tree is connected the tracer has a path to every inode that has a name, and
   every reply is the one that the request, the file system and the permissions dictate.
   */
  method MountAndServe(fs: Tree, kernel: Kernel, n: nat) returns (t: Tracer, run: seq<Served>)
    requires WellFormed(fs) && NoHardLinks(fs)
    requires KernelIsConsiderate(Mounted(fs), kernel)
    ensures t.Valid() && t.NoNulls() && Inv(t.State())
    ensures |run| == n && Follows(kernel, run)
    ensures Legal(Mounted(fs), run) && t.State() == After(Mounted(fs), run)
    ensures Connected(fs) ==> PathsComplete(t.State())
    ensures Honest(t.Fds()) && DenialsKept(Mounted(fs), kernel, run)
    ensures Connected(fs) ==> AllRight(Mounted(fs), kernel, run)
  {
    hide Tracer.Valid, KernelIsConsiderate, PromisesKept, NoHardLinks, Connected, PathsComplete, Complete, Honest,
         Dictated, DenialsKept, AllRight;
    t := new Tracer(fs);
    ConsiderateKernelKeepsPromises(fs, kernel);
    run := t.Serve(kernel, n);
    if Connected(fs) {
      ConsiderateKernelFindsPaths(fs, kernel, run);
      ConsiderateKernelIsAnswered(fs, kernel, run);
    }
    MountedIsIdeal(fs);
    ConsiderateRunStaysIdeal(Mounted(fs), kernel, run);
  }

  /**
   A file with two names, each looked up once: the second lookup maps a second inode under
   the same number, and the first one, still linked, is lost to `inodeMap`.
   */
  method HardLinkAliases() returns (t: Tracer, first: Inode, r: Reply, r': Reply)
    ensures r == Entry(2) && r' == Entry(2)
    ensures first in t.live && first.ino == 2
    ensures t.Known(2) && t.inodeMap[2] != first
    ensures "a" in t.root.dentries && t.root.dentries["a"] == first
    ensures !t.Valid()
  {
    hide Tracer.Valid, Inv, Rooted;
    var two := Tree({ROOT}, map[(ROOT, "a") := 2, (ROOT, "b") := 2]);
    HardLinkTree(two);
    t := new Tracer(two);
    t.StateFields(ROOT);
    RootIsRooted(t.links);
    r := t.Lookup(ROOT, "a", true, false);
    assert r == Entry(2);
    StepKeepsInv(Mounted(two), Served(LookupReq(ROOT, "a"), r));
    t.StateFields(ROOT);
    t.StateFields(2);
    first := t.inodeMap[2];
    t.RootIsLive();
    t.CachedIff(t.root, "a");
    t.ChildIsLive(t.root, "a");
    t.RootIsRoot(t.root.dentries["a"]);
    RootIsRooted(t.links);
    assert !MissIsNew(t.State(), LookupReq(ROOT, "b"));
    r' := t.Lookup(ROOT, "b", true, false);
  }

  /**
   Creating a file through a symbolic link keeps the target's descriptor with the link, and the
   next getattr gives the link the target's number.
   */
  method CreateMisleads() returns (t: Tracer, r: Reply, r': Reply)
    ensures r == Entry(2) && r' == Attr(3)
    ensures !t.Valid() && t.Known(2) && t.inodeMap[2].ino == 3
  {
    hide Tracer.Valid, Inv, Admissible, Settled, Expected, Apply, LegalStep, IsLeast, KeptBy;
    CreateAnswered();
    t := new Tracer(AB);
    r := t.Dispatch(Call(CREATE, true, false));
    t.StateFields(2);
    r' := t.Getattr(2, false);
  }

  /** So does unlinking a symbolic link that has been looked up. */
  method UnlinkMisleads() returns (t: Tracer, r: Reply, r': Reply, r'': Reply)
    ensures r == Entry(2) && r' == Done && r'' == Attr(3)
    ensures !t.Valid() && t.Known(2) && t.inodeMap[2].ino == 3
  {
    hide Tracer.Valid, Inv, Admissible, Settled, Expected, Apply, LegalStep, IsLeast, KeptBy;
    UnlinkAnswered();
    t := new Tracer(AB);
    r := t.Dispatch(Call(LOOK, true, false));
    r' := t.Dispatch(Call(REMOVE, true, false));
    t.StateFields(2);
    r'' := t.Getattr(2, false);
  }

  /** Opens an existing file of the root with `create`. */
  method CreateExisting(t: Tracer, name: Name, fd: Fd)
    requires t.Valid() && Inv(t.State()) && t.NoNulls()
    requires (ROOT, name) in t.fs.entries && t.fs.entries[(ROOT, name)] !in t.fs.dirs
    requires ROOT in t.refs && fd !in t.table && Count(t.refs, t.fs.entries[(ROOT, name)]) < INT32_MAX
    requires 9 !in t.fs.dirs && !Linked(t.fs.entries, 9)
    modifies t, t.live
    ensures t.Valid() && Inv(t.State()) && t.NoNulls() && fresh(t.live - old(t.live))
    ensures t.fs == old(t.fs)
    ensures var i := old(t.fs.entries[(ROOT, name)]);
            && t.links == Detach(old(t.links), i)[(ROOT, name) := i] && t.refs == old(t.refs)[i := Count(old(t.refs), i) + 1]
            && t.Fds() == CreateFds(old(t.Fds()), i in old(t.refs), i, fd, i)
  {
    hide Tracer.Valid, Inv, Rooted, Linked, CreateFds, Expected, Settled;
    ghost var s, req := t.State(), CreateReq(ROOT, name, false, 9, None, fd);
    t.StateFields(ROOT);
    RootIsRooted(t.links);
    OpenExisting(s, req);
    var r := t.Dispatch(Call(CreateReq(ROOT, name, false, 9, None, fd), true, false));
  }

  /** Looks a file of the root up and opens it. */
  method LookUpAndOpen(t: Tracer, name: Name, i: Ino, fd: Fd)
    requires t.Valid() && Inv(t.State()) && t.NoNulls()
    requires (ROOT, name) in t.fs.entries && t.fs.entries[(ROOT, name)] == i
    requires ROOT in t.refs && i !in t.refs && fd !in t.table && (ROOT, name) !in t.links
    modifies t, t.live
    ensures t.Valid() && Inv(t.State()) && t.NoNulls() && fresh(t.live - old(t.live))
    ensures t.fs == old(t.fs) && t.links == old(t.links)[(ROOT, name) := i] && t.refs == old(t.refs)[i := 1]
    ensures t.Fds() == Keep(Reset(old(t.Fds()), false, i), i, fd, i)
  {
    hide Tracer.Valid, Inv, Rooted, Expected, Settled, Reset, Keep;
    ghost var s := t.State();
    LookupAnswered(s, name);
    var r := t.Dispatch(Call(LookupReq(ROOT, name), true, false));
    OpenAnswered(s, name, fd);
    r := t.Dispatch(Call(OpenReq(i, fd, i), true, false));
  }

  method CreateTwice() returns (t: Tracer)
    ensures t.Valid() && Inv(t.State()) && t.NoNulls() && fresh(t) && fresh(t.live)
    ensures t.fs == ABC && t.links == map[(ROOT, "a") := 2] && t.refs == map[ROOT := 1, 2 := 2] && t.Fds() == TWICE
  {
    hide Tracer.Valid, Inv, Rooted, Linked;
    ThreeFiles();
    t := new Tracer(ABC);
    CreateExisting(t, "a", 5);
    CreateExisting(t, "a", 6);
    TwiceFds();
  }

  method ReleaseOpen(t: Tracer, i: Ino, fd: Fd) returns (r: Reply)
    requires t.Valid() && Inv(t.State()) && t.NoNulls() && i in t.refs && fd in t.table
    modifies t, t.live
    ensures t.Valid() && Inv(t.State()) && t.NoNulls() && t.live == old(t.live)
    ensures t.fs == old(t.fs) && t.links == old(t.links) && t.refs == old(t.refs)
    ensures r == Done && t.Fds() == LetGo(old(t.Fds()), i, fd)
  {
    hide Tracer.Valid, Inv;
    t.StateFields(i);
    r := t.ReleaseFile(i, fd, false);
    StepKeepsInv(old(t.State()), Served(ReleaseReq(i, fd), r));
  }

  /**
   Numbers outlive what they stand for.  Creating `a` twice closes the first descriptor behind the
   kernel's back; `b` gets its number; the kernel releases the first descriptor of `a` and so closes
   `b`'s; `c` gets the number; and the next getattr gives `b` the number of `c`.
   */
  method ReuseMisleads() returns (t: Tracer, r: Reply, r': Reply)
    ensures r == Done && r' == Attr(4)
    ensures !t.Valid() && t.Known(3) && t.inodeMap[3].ino == 4
  {
    hide Tracer.Valid, Inv, Keep, Reset, LetGo, IsLeast, KeptBy;
    ReuseFds();
    t := CreateTwice();
    LookUpAndOpen(t, "b", 3, 5);
    r := ReleaseOpen(t, 2, 5);
    LookUpAndOpen(t, "c", 4, 5);
    t.StateFields(3);
    r' := t.Getattr(3, false);
  }

  /** Forgetting a number that was never handed out leaves a null pointer in the map. */
  method StrayForgetPlantsNull() returns (t: Tracer)
    ensures t.Valid() && 7 in t.inodeMap && t.inodeMap[7] == null && !t.NoNulls()
  {
    t := new Tracer(Tree({ROOT}, map[]));
    t.StateFields(7);
    t.Forget(7, 1);
    t.StateFields(7);
  }

  lemma HardLinkTree(two: Tree)
    requires two == Tree({ROOT}, map[(ROOT, "a") := 2, (ROOT, "b") := 2])
    ensures Inv(Mounted(two))
  {
    assert Ranked(two.entries, map[2 := 1]);
  }
}
