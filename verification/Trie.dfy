/**
 The CIDR trie: two binary radix trees of heap nodes, built in place by `Insert` and
 walked bit by bit by `Contains`.
 */
module Trie {
  import opened Bits
  import opened Netip
  import opened Octets
  import opened Canonical
  import opened Wrappers

  class Node {
    var children: seq<Node?>
    var terminal: bool

    constructor ()
      ensures children == [null, null] && !terminal
    {
      children := [null, null];
      terminal := false;
    }
  }

  class Trie {
    const v4: Node
    const v6: Node
    var count: int

    /** The node at each place; its values are all the nodes the trie owns. */
    ghost var nodes: map<Slot, Node>
    /** The places of the terminal nodes. */
    ghost var marks: set<Slot>
    /** The recorded prefixes: the trie's abstract value. */
    ghost var entries: set<Prefix>

    ghost function Root(f: Family): Node {
      if f == Four then v4 else v6
    }

    /** No two places share a node, so each tree is acyclic and the two trees are apart. */
    ghost predicate Unshared()
      reads this`nodes
    {
      forall s, t | s in nodes && t in nodes && s != t :: nodes[s] != nodes[t]
    }

    /** Child pointer `b` of the node at `s` leads exactly to the place one bit further. */
    ghost predicate LinkedTo(s: Slot, b: nat)
      requires s in nodes && |nodes[s].children| == 2 && b < 2
      reads this`nodes, nodes.Values`children
    {
      var t := Slot(s.family, s.path + [b]);
      nodes[s].children[b] == if t in nodes then nodes[t] else null
    }

    ghost predicate Linked(s: Slot)
      requires s in nodes
      reads this`nodes, nodes.Values`children
    {
      |nodes[s].children| == 2 && LinkedTo(s, 0) && LinkedTo(s, 1)
    }

    /** Every place below a root has its parent, spells bits, and is no deeper than its family is wide. */
    ghost predicate Rooted(s: Slot)
      reads this`nodes
    {
      && |s.path| <= Width(s.family)
      && (s.path != [] ==>
            && Slot(s.family, s.path[..|s.path| - 1]) in nodes
            && s.path[|s.path| - 1] < 2)
    }

    ghost predicate Shape()
      reads this`nodes, nodes.Values`children
    {
      && Slot(Four, []) in nodes && nodes[Slot(Four, [])] == v4
      && Slot(Six, []) in nodes && nodes[Slot(Six, [])] == v6
      && Unshared()
      && (forall s {:trigger Rooted(s)} | s in nodes :: Rooted(s))
      && (forall s {:trigger Linked(s)} | s in nodes :: Linked(s))
    }

    /** A node is terminal exactly when its place is marked. */
    ghost predicate TerminalsMarked()
      reads this`nodes, this`marks, nodes.Values`terminal
    {
      && marks <= nodes.Keys
      && forall s | s in nodes :: nodes[s].terminal <==> s in marks
    }

    ghost predicate Valid()
      reads this, nodes.Values
    {
      Shape() && TerminalsMarked() && EntriesMarked()
    }

    /** The marks are the places of the recorded prefixes, and the count is their number. */
    ghost predicate EntriesMarked()
      reads this`marks, this`entries, this`count
    {
      && marks == Slots(entries)
      && (forall c | c in entries :: IsCanonical(c))
      && count == |entries|
    }

    constructor ()
      ensures Valid() && entries == {}
      ensures fresh(nodes.Values)
    {
      var four := new Node();
      var six := new Node();
      v4, v6 := four, six;
      count := 0;
      entries, marks := {}, {};
      nodes := map[Slot(Four, []) := four, Slot(Six, []) := six];
    }

    /** The number of distinct recorded prefixes. */
    method Len() returns (n: int)
      requires Valid()
      ensures n == |entries|
    {
      n := count;
    }

    /** Hangs a new node below the one at `s`. */
    method Grow(ghost s: Slot, n: Node, b: nat)
      requires Shape() && s in nodes && nodes[s] == n && b < 2
      requires |s.path| < Width(s.family)
      requires Slot(s.family, s.path + [b]) !in nodes
      modifies this`nodes, n`children
      ensures Shape()
      ensures var t := Slot(s.family, s.path + [b]);
        && nodes.Keys == old(nodes).Keys + {t}
        && Extends(old(nodes))
        && fresh(nodes[t]) && !nodes[t].terminal
    {
      assert Linked(s) && Rooted(s);
      ghost var t := Slot(s.family, s.path + [b]);
      LeafHasNoPlacesBelow(t);
      assert t.path[..|t.path| - 1] == s.path;
      var child := new Node();
      n.children := n.children[b := child];
      nodes := nodes[t := child];
      forall q {:trigger Rooted(q)} | q in nodes ensures Rooted(q) {
        assert q != t ==> old(Rooted(q));
      }
      forall q {:trigger Linked(q)} | q in nodes ensures Linked(q) {
        if q == t {
          SnocLonger(t.path);
        } else {
          assert old(Linked(q));
          SnocInjective(q.path, 0, s.path, b);
          SnocInjective(q.path, 1, s.path, b);
        }
      }
    }

    lemma LeafHasNoPlacesBelow(t: Slot)
      requires Shape() && t !in nodes
      ensures Slot(t.family, t.path + [0]) !in nodes && Slot(t.family, t.path + [1]) !in nodes
    {
      forall b: nat | b < 2 ensures Slot(t.family, t.path + [b]) !in nodes {
        var u := Slot(t.family, t.path + [b]);
        assert u.path[..|u.path| - 1] == t.path;
        assert u in nodes ==> Rooted(u);
      }
    }

    /** Adds `p` to the set. */
    method Insert(p: Prefix)
      requires Valid()
      modifies this, nodes.Values
      ensures Valid()
      ensures entries == old(entries) + Recorded([p])
      ensures Extends(old(nodes)) && fresh(nodes.Values - old(nodes.Values))
    {
      RecordedOne(p);
      if !p.IsValid() {
        return;
      }
      var m := Masked(p);
      var addr := Unmap(m.addr);
      var bits := m.bits;
      var root, maxBits := v6, 128;
      if addr.IPv4? {
        root, maxBits := v4, 32;
      }
      if bits > maxBits {
        return;
      }
      ghost var c := Prefix(addr, bits);
      assert IsCanonical(c) by { CanonicalIsMasked(p); }
      PathSpellsBytes(addr, bits);
      var n := Reach(root, AddrBytes(addr), bits, FamilyOf(addr), PathOf(addr, bits));
      Record(n, c);
    }

    /** The end of `Insert`: counts the prefix when its node was not terminal before. */
    method Record(n: Node, ghost c: Prefix)
      requires Valid() && IsCanonical(c) && SlotOf(c) in nodes && nodes[SlotOf(c)] == n
      modifies this`count, this`entries, this`marks, n`terminal
      ensures Valid() && entries == old(entries) + {c}
    {
      MarkEntry(c, entries);
      var added := Mark(n, SlotOf(c));
      Count(added, c);
    }

    /** The count goes up when the prefix is new. */
    method Count(added: bool, ghost c: Prefix)
      requires marks == Slots(entries + {c}) && (added <==> c !in entries) && IsCanonical(c)
      requires (forall e | e in entries :: IsCanonical(e)) && count == |entries|
      modifies this`count, this`entries
      ensures EntriesMarked() && entries == old(entries) + {c}
    {
      CountEntry(c, entries);
      if added {
        count := count + 1;
      }
      entries := entries + {c};
    }

    /** Makes the node at `s` terminal; says whether it was not. */
    method Mark(n: Node, ghost s: Slot) returns (added: bool)
      requires Shape() && TerminalsMarked() && s in nodes && nodes[s] == n
      modifies this`marks, n`terminal
      ensures Shape() && TerminalsMarked() && marks == old(marks) + {s}
      ensures added <==> s !in old(marks)
    {
      added := !n.terminal;
      if added {
        n.terminal := true;
      }
      marks := marks + {s};
    }

    /** The descending loop of `Insert`: walks to the place `path` spells, allocating what is missing. */
    method Reach(root: Node, bytes: seq<Byte>, bits: nat, ghost f: Family, ghost path: Path) returns (n: Node)
      requires Shape() && TerminalsMarked() && root == Root(f)
      requires |path| == bits <= Width(f) && Spells(path, bytes)
      modifies this`nodes, nodes.Values
      ensures Shape() && TerminalsMarked()
      ensures Slot(f, path) in nodes && nodes[Slot(f, path)] == n
      ensures Extends(old(nodes))
      ensures forall s | s in nodes && s !in old(nodes) :: fresh(nodes[s])
    {
      n := root;
      var i := 0;
      assert path[..0] == [];
      while i < bits
        invariant 0 <= i <= bits
        invariant Shape() && TerminalsMarked()
        invariant Slot(f, path[..i]) in nodes && nodes[Slot(f, path[..i])] == n
        invariant Extends(old(nodes))
        invariant forall s | s in nodes && s !in old(nodes) :: fresh(nodes[s])
      {
        var b := BitAt(bytes, i);
        assert path[..i + 1] == path[..i] + [b];
        n := Child(Slot(f, path[..i]), n, b);
        i := i + 1;
      }
      assert path[..bits] == path;
    }

    /** One step of that loop: the child, allocated when it is missing. */
    method Child(ghost s: Slot, n: Node, b: nat) returns (m: Node)
      requires Shape() && TerminalsMarked() && s in nodes && nodes[s] == n && b < 2 && |s.path| < Width(s.family)
      modifies this`nodes, n`children
      ensures Shape() && TerminalsMarked() && Extends(old(nodes))
      ensures Slot(s.family, s.path + [b]) in nodes && nodes[Slot(s.family, s.path + [b])] == m
      ensures forall t | t in nodes && t !in old(nodes) :: fresh(nodes[t])
    {
      assert Linked(s);
      if n.children[b] == null {
        Grow(s, n, b);
        assert Linked(s);
      }
      m := n.children[b];
    }

    ghost predicate Extends(before: map<Slot, Node>)
      reads this
    {
      forall s | s in before :: s in nodes && nodes[s] == before[s]
    }

    /** Whether a recorded prefix covers `ip`: whether the network of one holds its bytes. */
    method Contains(ip: Addr) returns (r: bool)
      requires Valid()
      ensures r <==> Blocks(entries, ip)
      ensures r <==> exists c :: c in entries && NetworkHolds(AddrBytes(c.addr), c.bits, ip)
    {
      BlocksByBytes(entries, ip);
      if ip == Zero {
        return false;
      }
      var u := Unmap(ip);
      ghost var f := FamilyOf(u);
      var root, maxBits := v6, 128;
      if u.IPv4? {
        root, maxBits := v4, 32;
      }
      PathSpellsBytes(u, maxBits);
      r := Search(root, AddrBytes(u), maxBits, f, PathOf(u, maxBits));
      CoverIsOnPath(entries, ip);
      forall n | 0 <= n <= maxBits ensures PathOf(u, maxBits)[..n] == PathOf(u, n) {
        PathPrefix(u, maxBits, n);
      }
    }

    /** The walk of `Contains`: whether a place on `path` is marked, stopping at the first one or where the tree ends. */
    method Search(root: Node, bytes: seq<Byte>, maxBits: nat, ghost f: Family, ghost path: Path) returns (r: bool)
      requires Shape() && TerminalsMarked() && root == Root(f)
      requires |path| == maxBits && Spells(path, bytes)
      ensures r <==> exists k :: 0 <= k <= maxBits && Slot(f, path[..k]) in marks
    {
      var n, i := root, 0;
      assert path[..0] == [];
      while i < maxBits
        invariant 0 <= i <= maxBits
        invariant Slot(f, path[..i]) in nodes && nodes[Slot(f, path[..i])] == n
        invariant forall k | 0 <= k < i :: Slot(f, path[..k]) !in marks
      {
        if n.terminal {
          return true;
        }
        var b := BitAt(bytes, i);
        assert path[..i + 1] == path[..i] + [b];
        assert Linked(Slot(f, path[..i]));
        if n.children[b] == null {
          NothingBelow(f, path, i + 1);
          return false;
        }
        n := n.children[b];
        i := i + 1;
      }
      return n.terminal;
    }

    /** Below a missing place nothing is marked. */
    lemma NothingBelow(f: Family, path: Path, i: nat)
      requires Shape() && TerminalsMarked() && i <= |path|
      requires Slot(f, path[..i]) !in nodes
      ensures forall k | i <= k <= |path| :: Slot(f, path[..k]) !in marks
    {
      forall k | i <= k <= |path|
        ensures Slot(f, path[..k]) !in nodes
      {
        if Slot(f, path[..k]) in nodes {
          Ancestors(f, path, k, i);
          assert false;
        }
      }
    }

    lemma {:induction false} Ancestors(f: Family, path: Path, k: nat, i: nat)
      requires Shape() && i <= k <= |path|
      requires Slot(f, path[..k]) in nodes
      ensures Slot(f, path[..i]) in nodes
      decreases k
    {
      if i < k {
        assert Rooted(Slot(f, path[..k]));
        assert path[..k][..k - 1] == path[..k - 1];
        Ancestors(f, path, k - 1, i);
      }
    }

    // -------------------------------------------------------------------------
    // The node graph, read through the child pointers alone

    /** Follows `path` from the root of `f`; null where a pointer is missing. */
    ghost function Follow(f: Family, path: Path): (r: Node?)
      requires Shape() && forall i | 0 <= i < |path| :: path[i] < 2
      reads this, nodes.Values
      ensures r != null ==> Slot(f, path) in nodes && nodes[Slot(f, path)] == r
      ensures Slot(f, path) in nodes ==> r != null
    {
      if path == [] then Root(f)
      else
        var k := |path| - 1;
        assert path == path[..k] + [path[k]];
        assert Slot(f, path) in nodes ==> Rooted(Slot(f, path));
        var n := Follow(f, path[..k]);
        if n == null then null
        else
          assert Linked(Slot(f, path[..k]));
          n.children[path[k]]
    }

    /**
     The reachable nodes form two disjoint trees: following two different paths never
     arrives at the same node, no path is longer than its family's width, and the
     terminal nodes reached are exactly the recorded prefixes.
     */
    lemma TwoDisjointTrees(f: Family, p: Path, g: Family, q: Path)
      requires Valid()
      requires forall i | 0 <= i < |p| :: p[i] < 2
      requires forall i | 0 <= i < |q| :: q[i] < 2
      ensures Follow(f, p) != null && Follow(f, p) == Follow(g, q) ==> f == g && p == q
      ensures Follow(f, p) != null ==> |p| <= Width(f)
      ensures (Follow(f, p) != null && Follow(f, p).terminal) <==> Slot(f, p) in Slots(entries)
    {
      var n, m := Follow(f, p), Follow(g, q);
      assert n != null ==> Rooted(Slot(f, p));
    }
  }

  lemma SnocInjective(p: Path, a: nat, q: Path, b: nat)
    ensures p + [a] == q + [b] <==> p == q && a == b
  {
    if p + [a] == q + [b] {
      assert (p + [a])[..|p|] == p && (q + [b])[..|q|] == q;
      assert (p + [a])[|p|] == a && (q + [b])[|q|] == b;
    }
  }

  lemma SnocLonger(p: Path)
    ensures forall b: nat :: p + [b] != p
  {}

  /** Marking a place adds one entry when the place was unmarked, and none otherwise. */
  lemma CountEntry(c: Prefix, entries: set<Prefix>)
    ensures |entries + {c}| == |entries| + if c in entries then 0 else 1
    ensures forall e | e in entries + {c} :: e in entries || e == c
  {
    if c in entries {
      assert entries + {c} == entries;
    }
  }

  lemma MarkEntry(c: Prefix, entries: set<Prefix>)
    requires IsCanonical(c) && forall e | e in entries :: IsCanonical(e)
    ensures SlotOf(c) in Slots(entries) <==> c in entries
    ensures Slots(entries + {c}) == Slots(entries) + {SlotOf(c)}
  {
    if SlotOf(c) in Slots(entries) {
      var e :| e in entries && e.IsValid() && SlotOf(e) == SlotOf(c);
      SlotInjective(c, e);
    }
    forall s ensures s in Slots(entries + {c}) <==> s in Slots(entries) + {SlotOf(c)} {
      if s in Slots(entries) + {SlotOf(c)} {
        var e :| (e in entries || e == c) && e.IsValid() && SlotOf(e) == s;
        assert e in entries + {c};
      }
    }
  }
}
