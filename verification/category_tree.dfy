/** The discussion category tree: nested nodes, each with the discussions filed directly
    under it (`entries`, by title), its sub-categories (by name), a `sort_key` and, once
    sorted, the ordered titles of its `children`. */
module CategoryTree {
  import opened Wrappers

  /** One discussion filed under a category: `{"id": ..., "sort_key": ...}`. */
  datatype Entry = Entry(id: string, sortKey: string)

  /** A category node. `children` stays empty until the tree is sorted. The root of the
      map has no sort key of its own; the model gives it the empty string, which nothing
      reads. */
  datatype Node = Node(
    entries: map<string, Entry>,
    subcategories: map<string, Node>,
    sortKey: string,
    children: seq<string>)

  /** What the first pass records for one discussion: `{"title", "id", "sort_key"}`. */
  datatype PendingEntry = PendingEntry(title: string, id: string, sortKey: string)

  /** The node created on demand for path component `level`. */
  function NewNode(level: string): Node {
    Node(map[], map[], level, [])
  }

  /** The root before anything is inserted: no entries and no sub-categories. */
  const EmptyRoot: Node := Node(map[], map[], "", [])

  /** The node reached from `n` by following `path` through sub-categories, if any. */
  function Walk(n: Node, path: seq<string>): Option<Node> {
    if path == [] then Some(n)
    else if path[0] in n.subcategories then Walk(n.subcategories[path[0]], path[1..])
    else None
  }

  predicate IsPrefix(q: seq<string>, p: seq<string>) {
    |q| <= |p| && p[..|q|] == q
  }

  function Titles(es: seq<PendingEntry>): set<string> {
    set e | e in es :: e.title
  }

  /** `es[i]` is the last pending entry with its title. */
  predicate LastWithTitle(es: seq<PendingEntry>, i: int) {
    0 <= i < |es| && forall j :: i < j < |es| ==> es[j].title != es[i].title
  }

  /** The entries a leaf receives: each pending entry is filed under its title, in order,
      so that a later entry with the same title overwrites an earlier one. */
  function EntriesOf(es: seq<PendingEntry>): (r: map<string, Entry>)
    ensures r.Keys == Titles(es)
  {
    if es == [] then map[]
    else
      var last := es[|es| - 1];
      var r := EntriesOf(es[..|es| - 1])[last.title := Entry(last.id, last.sortKey)];
      assert es == es[..|es| - 1] + [last];
      r
  }

  lemma EntriesOfSnoc(es: seq<PendingEntry>, e: PendingEntry)
    ensures EntriesOf(es + [e]) == EntriesOf(es)[e.title := Entry(e.id, e.sortKey)]
  {
    assert (es + [e])[..|es|] == es;
  }

  /** Each title maps to the id and sort key of the last pending entry carrying it. */
  lemma {:induction false} EntriesOfLastWins(es: seq<PendingEntry>, i: int)
    requires LastWithTitle(es, i)
    ensures es[i].title in EntriesOf(es)
    ensures EntriesOf(es)[es[i].title] == Entry(es[i].id, es[i].sortKey)
  {
    if i < |es| - 1 {
      var init := es[..|es| - 1];
      assert LastWithTitle(init, i) by {
        forall j | i < j < |init| ensures init[j].title != init[i].title {
          assert init[j] == es[j];
        }
      }
      EntriesOfLastWins(init, i);
    }
  }

  /** The insertion for one category path: walk (creating missing nodes with their
      level name as sort key) through `path[..|path|-1]`, then file `es` under the node
      for the last component. */
  function InsertPath(n: Node, path: seq<string>, es: seq<PendingEntry>): (r: Node)
    requires |path| >= 1
    ensures r.entries == n.entries && r.sortKey == n.sortKey && r.children == n.children
    ensures r.subcategories.Keys == n.subcategories.Keys + {path[0]}
    decreases |path|
  {
    var level := path[0];
    var child := if level in n.subcategories then n.subcategories[level] else NewNode(level);
    var updated :=
      if |path| == 1 then child.(entries := child.entries + EntriesOf(es))
      else InsertPath(child, path[1..], es);
    n.(subcategories := n.subcategories[level := updated])
  }

  /** What a walk finds after an insertion: off the inserted path nothing changes; on it
      the node exists, keeps its sort key (or, if new, has its level name), keeps its
      entries, and the node at the end of the path has gained `es`. */
  lemma {:induction false} WalkInsertPath(n: Node, p: seq<string>, es: seq<PendingEntry>, q: seq<string>)
    requires |p| >= 1
    ensures !IsPrefix(q, p) ==> Walk(InsertPath(n, p, es), q) == Walk(n, q)
    ensures IsPrefix(q, p) ==> Walk(InsertPath(n, p, es), q).Some?
    ensures IsPrefix(q, p) && Walk(n, q).None? ==>
              |q| >= 1 && Walk(InsertPath(n, p, es), q).value.sortKey == q[|q| - 1]
    ensures IsPrefix(q, p) && Walk(n, q).Some? ==>
              Walk(InsertPath(n, p, es), q).value.sortKey == Walk(n, q).value.sortKey
    ensures IsPrefix(q, p) ==>
              Walk(InsertPath(n, p, es), q).value.entries ==
                (if Walk(n, q).Some? then Walk(n, q).value.entries else map[]) +
                (if q == p then EntriesOf(es) else map[])
    decreases |p|
  {
    var r := InsertPath(n, p, es);
    if q == [] {
      return;
    }
    var level := p[0];
    var child := if level in n.subcategories then n.subcategories[level] else NewNode(level);
    var updated := r.subcategories[level];
    if q[0] != level {
      assert !IsPrefix(q, p);
      return;
    }
    assert Walk(r, q) == Walk(updated, q[1..]);
    assert level in n.subcategories ==> Walk(n, q) == Walk(child, q[1..]);
    assert level !in n.subcategories ==> Walk(n, q) == None;
    assert IsPrefix(q, p) <==> (q[1..] == [] || (|p| > 1 && IsPrefix(q[1..], p[1..])));
    assert q == p <==> q[1..] == p[1..];
    if |p| == 1 {
      if |q| > 1 {
        assert Walk(updated, q[1..]) == Walk(child, q[1..]);
      }
    } else {
      WalkInsertPath(child, p[1..], es, q[1..]);
      if |q| > 1 && level !in n.subcategories {
        assert Walk(child, q[1..]) == None;
      }
    }
  }

  /** The tree with every `children` list cleared: what sorting must leave unchanged. */
  function Erase(n: Node): Node {
    Node(n.entries, map t | t in n.subcategories :: Erase(n.subcategories[t]), n.sortKey, [])
  }

  /** Trees that agree up to their `children` lists have the same nodes at the same paths,
      with the same entries and sort keys. */
  lemma {:induction false} WalkErase(a: Node, b: Node, q: seq<string>)
    requires Erase(a) == Erase(b)
    ensures Walk(a, q).Some? <==> Walk(b, q).Some?
    ensures Walk(a, q).Some? ==>
              Erase(Walk(a, q).value) == Erase(Walk(b, q).value)
    ensures Walk(a, q).Some? ==>
              Walk(a, q).value.entries == Walk(b, q).value.entries &&
              Walk(a, q).value.sortKey == Walk(b, q).value.sortKey
  {
    if q != [] {
      var level := q[0];
      assert level in a.subcategories <==> level in Erase(a).subcategories;
      assert level in b.subcategories <==> level in Erase(b).subcategories;
      if level in a.subcategories {
        assert Erase(a).subcategories[level] == Erase(a.subcategories[level]);
        assert Erase(b).subcategories[level] == Erase(b.subcategories[level]);
        WalkErase(a.subcategories[level], b.subcategories[level], q[1..]);
      }
    } else {
      assert Erase(a).entries == a.entries && Erase(a).sortKey == a.sortKey;
      assert Erase(b).entries == b.entries && Erase(b).sortKey == b.sortKey;
    }
  }
}
