/**
 * An abstract filesystem: a tree of files (byte sequences) and directories whose
 * entries are listed in a fixed order. The order matters to the service: it is the
 * order in which `listFiles()` and `assets.list()` hand entries to the recursive
 * delete and the recursive copy. A directory the copy builds lists its entries in the
 * order they were created.
 */
module FsTree {
  import opened Basics

  type Name = string

  /** A path relative to some root, one name per directory level; `[]` is the root. */
  type Path = seq<Name>

  /** The text of a relative path as `File(parent, text)` takes it: the names joined with `/`. */
  function PathText(p: Path): string
  {
    if |p| == 0 then ""
    else if |p| == 1 then p[0]
    else p[0] + "/" + PathText(p[1..])
  }

  datatype Node = File(data: Bytes) | Dir(entries: seq<Entry>)

  datatype Entry = Entry(name: Name, node: Node)

  /** The name of the completion marker each copied directory receives. */
  const FlagName: Name := "copy_complete.flag"

  /** The name of the version marker at the bundle root. */
  const VersionName: Name := "version.txt"

  /** What listing `n` yields; listing a plain file yields nothing. */
  function Listing(n: Node): seq<Entry>
  {
    if n.Dir? then n.entries else []
  }

  /** The node filed under `x`, taking the first entry of that name. */
  function Find(es: seq<Entry>, x: Name): (r: Option<Node>)
    ensures r.Some? <==> x in Names(es)
  {
    if |es| == 0 then None
    else if es[0].name == x then Some(es[0].node)
    else Find(es[1..], x)
  }

  /** The names a directory lists. */
  function Names(es: seq<Entry>): set<Name>
  {
    if |es| == 0 then {} else {es[0].name} + Names(es[1..])
  }

  function Child(n: Node, x: Name): Option<Node>
  {
    Find(Listing(n), x)
  }

  /** The node reached by walking `p` down from `n`, if there is one. */
  function Lookup(n: Node, p: Path): Option<Node>
    decreases |p|
  {
    if |p| == 0 then Some(n)
    else match Child(n, p[0])
      case None => None
      case Some(c) => Lookup(c, p[1..])
  }

  function LookupIn(root: Option<Node>, p: Path): Option<Node>
  {
    if root.None? then None else Lookup(root.value, p)
  }

  /** Writes `n` under `x`: replaces the entry of that name in place, or appends one. */
  function Put(es: seq<Entry>, x: Name, n: Node): (r: seq<Entry>)
    ensures Find(r, x) == Some(n)
    ensures forall y :: y != x ==> Find(r, y) == Find(es, y)
    ensures x !in Names(es) ==> r == es + [Entry(x, n)]
    ensures Names(r) == Names(es) + {x}
  {
    if |es| == 0 then [Entry(x, n)]
    else if es[0].name == x then [Entry(x, n)] + es[1..]
    else
      assert es == [es[0]] + es[1..];
      [es[0]] + Put(es[1..], x, n)
  }

  /** Deletes every entry named `x`. */
  function Remove(es: seq<Entry>, x: Name): (r: seq<Entry>)
    ensures Find(r, x) == None
    ensures forall y :: y != x ==> Find(r, y) == Find(es, y)
    ensures Names(r) == Names(es) - {x}
  {
    if |es| == 0 then []
    else if es[0].name == x then Remove(es[1..], x)
    else
      assert es == [es[0]] + es[1..];
      [es[0]] + Remove(es[1..], x)
  }

  /** The directory `es` after the slot `x` came to hold `slot` (None: nothing there). */
  function Store(es: seq<Entry>, x: Name, slot: Option<Node>): (r: seq<Entry>)
    ensures Find(r, x) == slot
    ensures forall y :: y != x ==> Find(r, y) == Find(es, y)
    ensures Names(r) <= Names(es) + {x}
  {
    match slot
    case None => Remove(es, x)
    case Some(n) => Put(es, x, n)
  }

  predicate UniqueNames(es: seq<Entry>)
  {
    forall i, j :: 0 <= i < j < |es| ==> es[i].name != es[j].name
  }

  /** Every directory of the tree lists each name at most once, as a real filesystem does. */
  predicate WellFormed(n: Node)
  {
    match n
    case File(_) => true
    case Dir(es) => UniqueNames(es) && forall i :: 0 <= i < |es| ==> WellFormed(es[i].node)
  }

  /**
   * `a` is `b` with some entries removed, at any depth: every directory of `a` keeps a
   * subsequence of the entries of the matching directory of `b`, in order, and every
   * file of `a` holds exactly the bytes of the matching file of `b`.
   */
  predicate Shrunk(a: Node, b: Node)
    decreases b, 1
  {
    match b
    case File(_) => a == b
    case Dir(bs) => a.Dir? && EmbedsIn(a.entries, b, 0, 0)
  }

  /** `xs[i..]` embeds, in order and shrunk, into the entries `b.entries[j..]`. */
  predicate EmbedsIn(xs: seq<Entry>, b: Node, i: nat, j: nat)
    requires b.Dir?
    decreases b, 0, |b.entries| - j
  {
    if i >= |xs| then true
    else if j >= |b.entries| then false
    else
      (xs[i].name == b.entries[j].name && Shrunk(xs[i].node, b.entries[j].node) && EmbedsIn(xs, b, i + 1, j + 1))
      || EmbedsIn(xs, b, i, j + 1)
  }

  lemma {:induction false} ShrunkRefl(n: Node)
    ensures Shrunk(n, n)
    decreases n, 1
  {
    match n
    case File(_) =>
    case Dir(es) => EmbedsSuffix(es, n, 0, 0);
  }

  /** Entries that coincide with a suffix of `b`'s entries embed into it. */
  lemma {:induction false} EmbedsSuffix(xs: seq<Entry>, b: Node, i: nat, j: nat)
    requires b.Dir? && i <= |xs| && j <= |b.entries|
    requires xs[i..] == b.entries[j..]
    ensures EmbedsIn(xs, b, i, j)
    decreases b, 0, |b.entries| - j
  {
    if i < |xs| {
      assert xs[i] == xs[i..][0] == b.entries[j..][0] == b.entries[j];
      ShrunkRefl(b.entries[j].node);
      assert xs[i + 1..] == xs[i..][1..];
      assert b.entries[j + 1..] == b.entries[j..][1..];
      EmbedsSuffix(xs, b, i + 1, j + 1);
    }
  }

  /** An embedding keeps only names the larger directory lists. */
  lemma {:induction false} EmbedsNames(xs: seq<Entry>, b: Node, i: nat, j: nat)
    requires b.Dir? && i <= |xs| && j <= |b.entries|
    requires EmbedsIn(xs, b, i, j)
    ensures Names(xs[i..]) <= Names(b.entries[j..])
    decreases |b.entries| - j
  {
    if i < |xs| {
      assert xs[i..][1..] == xs[i + 1..];
      assert b.entries[j..][1..] == b.entries[j + 1..];
      if xs[i].name == b.entries[j].name && Shrunk(xs[i].node, b.entries[j].node) && EmbedsIn(xs, b, i + 1, j + 1) {
        EmbedsNames(xs, b, i + 1, j + 1);
      } else {
        EmbedsNames(xs, b, i, j + 1);
      }
    }
  }

  /** Removing entries never makes a name appear. */
  lemma ShrunkNames(a: Node, b: Node)
    requires Shrunk(a, b)
    ensures Names(Listing(a)) <= Names(Listing(b))
  {
    if b.Dir? {
      EmbedsNames(a.entries, b, 0, 0);
      assert a.entries[0..] == a.entries && b.entries[0..] == b.entries;
    }
  }

  /** A name the front part lists is found there, whatever follows it. */
  lemma {:induction false} FindInFront(a: seq<Entry>, b: seq<Entry>, x: Name)
    requires x in Names(a)
    ensures Find(a + b, x) == Find(a, x)
  {
    if a[0].name != x {
      assert (a + b)[1..] == a[1..] + b;
      FindInFront(a[1..], b, x);
    }
  }

  lemma {:induction false} NamesConcat(a: seq<Entry>, b: seq<Entry>)
    ensures Names(a + b) == Names(a) + Names(b)
  {
    if |a| > 0 {
      assert (a + b)[1..] == a[1..] + b;
      NamesConcat(a[1..], b);
    } else {
      assert a + b == b;
    }
  }
}
