/** `sort_map_entries`: fill every node's `children` with the titles of its entries and
    sub-categories, ordered by their sort keys, recursively for every sub-category. */
module CategorySort {
  import PyStr
  import opened CategoryTree
  import opened KeySets

  /** A `(title, sort_key)` pair, as collected into `things`. */
  type Keyed = (string, string)

  predicate SortedByKey(ps: seq<Keyed>) {
    forall i, j :: 0 <= i < j < |ps| ==> PyStr.LexLe(ps[i].1, ps[j].1)
  }

  /** A sorted sequence stays sorted when an element whose key is no larger than any
      of its keys is put in front. */
  lemma ConsSorted(h: Keyed, ps: seq<Keyed>)
    requires SortedByKey(ps)
    requires forall j :: 0 <= j < |ps| ==> PyStr.LexLe(h.1, ps[j].1)
    ensures SortedByKey([h] + ps)
  {
  }

  /** Inserts `p` before the first element whose key is not smaller. */
  function InsertByKey(p: Keyed, ps: seq<Keyed>): (r: seq<Keyed>)
    requires SortedByKey(ps)
    ensures multiset(r) == multiset(ps) + multiset{p}
    ensures SortedByKey(r)
  {
    if ps == [] then [p]
    else if PyStr.LexLe(p.1, ps[0].1) then
      forall j | 0 <= j < |ps| ensures PyStr.LexLe(p.1, ps[j].1) {
        if j > 0 {
          PyStr.LexLeTransitive(p.1, ps[0].1, ps[j].1);
        }
      }
      ConsSorted(p, ps);
      [p] + ps
    else
      var rest := InsertByKey(p, ps[1..]);
      assert ps == [ps[0]] + ps[1..];
      PyStr.LexLeTotal(p.1, ps[0].1);
      forall j | 0 <= j < |rest| ensures PyStr.LexLe(ps[0].1, rest[j].1) {
        assert rest[j] in multiset(rest);
        if rest[j] != p {
          assert rest[j] in ps[1..];
        }
      }
      ConsSorted(ps[0], rest);
      [ps[0]] + rest
  }

  /** The pairs sorted by sort key, as a stable insertion sort: a
      permutation of its input, ordered by key. */
  function SortByKey(ps: seq<Keyed>): (r: seq<Keyed>)
    ensures multiset(r) == multiset(ps)
    ensures SortedByKey(r)
  {
    if ps == [] then []
    else
      assert ps == [ps[0]] + ps[1..];
      InsertByKey(ps[0], SortByKey(ps[1..]))
  }

  /** The title of every pair, in order. */
  function TitlesOf(ps: seq<Keyed>): (r: seq<string>)
    ensures |r| == |ps|
    ensures forall k :: 0 <= k < |ps| ==> r[k] == ps[k].0
  {
    if ps == [] then [] else [ps[0].0] + TitlesOf(ps[1..])
  }

  /** How many of `n`'s entries (counting only titles in `titles`) have title and sort key `x`. */
  function EntryCount(n: Node, titles: set<string>, x: Keyed): nat {
    if x.0 in titles && x.0 in n.entries && n.entries[x.0].sortKey == x.1 then 1 else 0
  }

  /** The same for `n`'s sub-categories. */
  function SubcategoryCount(n: Node, names: set<string>, x: Keyed): nat {
    if x.0 in names && x.0 in n.subcategories && n.subcategories[x.0].sortKey == x.1 then 1 else 0
  }

  /** `x` is the pair collected for one of `n`'s entries. */
  predicate IsEntryPair(n: Node, x: Keyed) {
    x.0 in n.entries && n.entries[x.0].sortKey == x.1
  }

  /** `x` is the pair collected for one of `n`'s sub-categories. */
  predicate IsSubcategoryPair(n: Node, x: Keyed) {
    x.0 in n.subcategories && n.subcategories[x.0].sortKey == x.1
  }

  /** `x` can stand only for an entry of `n`, not for a sub-category. */
  predicate EntryOnly(n: Node, x: Keyed) {
    IsEntryPair(n, x) && !IsSubcategoryPair(n, x)
  }

  /** `x` can stand only for a sub-category of `n`, not for an entry. */
  predicate SubcategoryOnly(n: Node, x: Keyed) {
    IsSubcategoryPair(n, x) && !IsEntryPair(n, x)
  }

  /** Among pairs with the same sort key, every entry of `n` comes before every
      sub-category: entries are collected first and the sort is stable. */
  predicate EntriesFirst(n: Node, ps: seq<Keyed>) {
    forall i, j ::
      (0 <= i < |ps| && 0 <= j < |ps| && ps[i].1 == ps[j].1 &&
       EntryOnly(n, ps[i]) && SubcategoryOnly(n, ps[j])) ==> i < j
  }

  /** Putting `h` in front keeps entries first, as long as `h`, if a sub-category, has no
      entry with its key after it. */
  lemma ConsEntriesFirst(n: Node, h: Keyed, ps: seq<Keyed>)
    requires EntriesFirst(n, ps)
    requires SubcategoryOnly(n, h) ==> forall x :: x in ps && x.1 == h.1 ==> !EntryOnly(n, x)
    ensures EntriesFirst(n, [h] + ps)
  {
    var r := [h] + ps;
    forall i, j | 0 <= i < |r| && 0 <= j < |r| && r[i].1 == r[j].1 && EntryOnly(n, r[i]) && SubcategoryOnly(n, r[j])
      ensures i < j
    {
      if i > 0 && j > 0 {
        assert r[i] == ps[i - 1] && r[j] == ps[j - 1];
      }
    }
  }

  lemma TailEntriesFirst(n: Node, ps: seq<Keyed>)
    requires ps != [] && EntriesFirst(n, ps)
    ensures EntriesFirst(n, ps[1..])
  {
    var tail := ps[1..];
    forall i, j | 0 <= i < |tail| && 0 <= j < |tail| && tail[i].1 == tail[j].1 &&
                  EntryOnly(n, tail[i]) && SubcategoryOnly(n, tail[j])
      ensures i < j
    {
      assert tail[i] == ps[i + 1] && tail[j] == ps[j + 1];
    }
  }

  /** When `p` goes past the head of `ps`, no entry with the head's key follows the head
      if the head is a sub-category. */
  lemma HeadBeforeInserted(n: Node, p: Keyed, ps: seq<Keyed>)
    requires ps != [] && !PyStr.LexLe(p.1, ps[0].1)
    requires SortedByKey(ps) && EntriesFirst(n, ps)
    ensures SubcategoryOnly(n, ps[0]) ==>
              forall x :: x in InsertByKey(p, ps[1..]) && x.1 == ps[0].1 ==> !EntryOnly(n, x)
  {
    var tail := ps[1..];
    var rest := InsertByKey(p, tail);
    PyStr.LexLeReflexive(p.1);
    forall x | x in rest && x.1 == ps[0].1 && SubcategoryOnly(n, ps[0])
      ensures !EntryOnly(n, x)
    {
      assert x in multiset(rest);
      if x != p {
        assert x in multiset(tail);
        var m :| 0 <= m < |tail| && tail[m] == x;
        assert ps[m + 1] == x;
      }
    }
  }

  /** Inserting `p` keeps entries first, as long as `p`, if a sub-category, has no entry
      with its key after it. */
  lemma {:induction false} InsertByKeyEntriesFirst(n: Node, p: Keyed, ps: seq<Keyed>)
    requires SortedByKey(ps) && EntriesFirst(n, ps)
    requires SubcategoryOnly(n, p) ==> forall x :: x in ps && x.1 == p.1 ==> !EntryOnly(n, x)
    ensures EntriesFirst(n, InsertByKey(p, ps))
  {
    if ps == [] || PyStr.LexLe(p.1, ps[0].1) {
      ConsEntriesFirst(n, p, ps);
    } else {
      TailEntriesFirst(n, ps);
      InsertByKeyEntriesFirst(n, p, ps[1..]);
      HeadBeforeInserted(n, p, ps);
      ConsEntriesFirst(n, ps[0], InsertByKey(p, ps[1..]));
    }
  }

  /** Sorting keeps entries before sub-categories of equal key. */
  lemma {:induction false} SortByKeyEntriesFirst(n: Node, ps: seq<Keyed>)
    requires EntriesFirst(n, ps)
    ensures EntriesFirst(n, SortByKey(ps))
  {
    if ps != [] {
      var rest := SortByKey(ps[1..]);
      SortByKeyEntriesFirst(n, ps[1..]);
      forall x | x in rest && x.1 == ps[0].1 && SubcategoryOnly(n, ps[0])
        ensures !EntryOnly(n, x)
      {
        assert x in multiset(rest);
        var m :| 0 <= m < |ps[1..]| && ps[1..][m] == x;
        assert ps[m + 1] == x;
      }
      InsertByKeyEntriesFirst(n, ps[0], rest);
    }
  }

  /** `ps` lists every entry and every sub-category of `n` exactly once as a
      `(title, sort_key)` pair, in order of sort key with entries before sub-categories
      of equal key, and `n.children` is its titles. */
  ghost predicate Arranges(n: Node, ps: seq<Keyed>) {
    && TitlesOf(ps) == n.children
    && SortedByKey(ps)
    && EntriesFirst(n, ps)
    && forall x :: multiset(ps)[x] ==
         EntryCount(n, n.entries.Keys, x) + SubcategoryCount(n, n.subcategories.Keys, x)
  }

  /** Every node of the tree has its `children` arranged by sort key. */
  ghost predicate Ordered(n: Node) {
    && (exists ps :: Arranges(n, ps))
    && forall t :: t in n.subcategories ==> Ordered(n.subcategories[t])
  }

  /** The first loop of `sort_map_entries`: one `(title, sort_key)` pair per entry. */
  method EntryPairs(n: Node) returns (things: seq<Keyed>)
    ensures forall x :: multiset(things)[x] == EntryCount(n, n.entries.Keys, x)
    ensures forall k :: 0 <= k < |things| ==> IsEntryPair(n, things[k])
  {
    things := [];
    var titles := n.entries.Keys;
    while titles != {}
      invariant titles <= n.entries.Keys
      invariant forall k :: 0 <= k < |things| ==> IsEntryPair(n, things[k])
      invariant forall x :: multiset(things)[x] == EntryCount(n, n.entries.Keys - titles, x)
    {
      var title :| title in titles;
      things := things + [(title, n.entries[title].sortKey)];
      titles := titles - {title};
    }
  }

  /** `things` after collecting every entry of `n` (the first `entryCount` pairs) and the
      sub-categories in `done`, one pair each. */
  ghost predicate CollectedSoFar(n: Node, things: seq<Keyed>, entryCount: nat, done: set<string>) {
    && entryCount <= |things|
    && (forall k :: 0 <= k < entryCount ==> IsEntryPair(n, things[k]))
    && (forall k :: entryCount <= k < |things| ==> IsSubcategoryPair(n, things[k]))
    && forall x :: multiset(things)[x] == EntryCount(n, n.entries.Keys, x) + SubcategoryCount(n, done, x)
  }

  lemma CollectStep(n: Node, things: seq<Keyed>, entryCount: nat, done: set<string>, title: string)
    requires CollectedSoFar(n, things, entryCount, done)
    requires title in n.subcategories && title !in done
    ensures CollectedSoFar(n, things + [(title, n.subcategories[title].sortKey)], entryCount, done + {title})
  {
    var x0 := (title, n.subcategories[title].sortKey);
    forall x ensures SubcategoryCount(n, done + {title}, x) == SubcategoryCount(n, done, x) + (if x == x0 then 1 else 0) {
    }
  }

  /** `subcategories` holds the sorted copy of each sub-category of `n` named in `done`. */
  ghost predicate SortedSoFar(n: Node, subcategories: map<string, Node>, done: set<string>) {
    && subcategories.Keys == done
    && forall t :: t in subcategories ==>
         t in n.subcategories && Erase(subcategories[t]) == Erase(n.subcategories[t]) && Ordered(subcategories[t])
  }

  lemma SortedStep(n: Node, subcategories: map<string, Node>, done: set<string>, title: string, sorted: Node)
    requires SortedSoFar(n, subcategories, done)
    requires title in n.subcategories
    requires Erase(sorted) == Erase(n.subcategories[title]) && Ordered(sorted)
    ensures SortedSoFar(n, subcategories[title := sorted], done + {title})
  {
    var next := subcategories[title := sorted];
    forall t | t in next
      ensures t in n.subcategories && Erase(next[t]) == Erase(n.subcategories[t]) && Ordered(next[t])
    {
      if t != title {
        assert next[t] == subcategories[t];
      }
    }
  }

  /** Entries collected before sub-categories are first among equal keys. */
  lemma CollectedEntriesFirst(n: Node, things: seq<Keyed>, entryCount: nat)
    requires entryCount <= |things|
    requires forall k :: 0 <= k < entryCount ==> IsEntryPair(n, things[k])
    requires forall k :: entryCount <= k < |things| ==> IsSubcategoryPair(n, things[k])
    ensures EntriesFirst(n, things)
  {
  }

  /** Rebuilding a node with the same sub-category sort keys keeps entries first. */
  lemma RebuiltEntriesFirst(n: Node, subcategories: map<string, Node>, children: seq<string>, ps: seq<Keyed>)
    requires subcategories.Keys == n.subcategories.Keys
    requires forall t :: t in subcategories ==> Erase(subcategories[t]) == Erase(n.subcategories[t])
    requires EntriesFirst(n, ps)
    ensures EntriesFirst(Node(n.entries, subcategories, n.sortKey, children), ps)
  {
    var r := Node(n.entries, subcategories, n.sortKey, children);
    forall x ensures IsSubcategoryPair(r, x) == IsSubcategoryPair(n, x) {
      if x.0 in subcategories {
        assert Erase(subcategories[x.0]).sortKey == subcategories[x.0].sortKey;
      }
    }
  }

  /** The node rebuilt with sorted sub-categories and ordered children is arranged. */
  lemma SortedNodeArranged(n: Node, subcategories: map<string, Node>, things: seq<Keyed>)
    requires subcategories.Keys == n.subcategories.Keys
    requires forall t :: t in subcategories ==> Erase(subcategories[t]) == Erase(n.subcategories[t])
    requires forall x :: multiset(things)[x] ==
               EntryCount(n, n.entries.Keys, x) + SubcategoryCount(n, n.subcategories.Keys, x)
    requires EntriesFirst(n, things)
    ensures Arranges(Node(n.entries, subcategories, n.sortKey, TitlesOf(SortByKey(things))), SortByKey(things))
  {
    var r := Node(n.entries, subcategories, n.sortKey, TitlesOf(SortByKey(things)));
    forall x ensures SubcategoryCount(r, r.subcategories.Keys, x) == SubcategoryCount(n, n.subcategories.Keys, x) {
      if x.0 in subcategories {
        assert Erase(subcategories[x.0]).sortKey == subcategories[x.0].sortKey;
      }
    }
    SortByKeyEntriesFirst(n, things);
    RebuiltEntriesFirst(n, subcategories, r.children, SortByKey(things));
  }

  lemma EraseRebuilt(n: Node, subcategories: map<string, Node>, children: seq<string>)
    requires subcategories.Keys == n.subcategories.Keys
    requires forall t :: t in subcategories ==> Erase(subcategories[t]) == Erase(n.subcategories[t])
    ensures Erase(Node(n.entries, subcategories, n.sortKey, children)) == Erase(n)
  {
  }

  /** Once every entry and sub-category is collected and every sub-category sorted, the
      rebuilt node agrees with `n` up to `children` and is ordered throughout. */
  lemma SortedNodeOrdered(n: Node, subcategories: map<string, Node>, things: seq<Keyed>, entryCount: nat)
    requires CollectedSoFar(n, things, entryCount, n.subcategories.Keys)
    requires SortedSoFar(n, subcategories, n.subcategories.Keys)
    ensures var r := Node(n.entries, subcategories, n.sortKey, TitlesOf(SortByKey(things)));
            Erase(r) == Erase(n) && Ordered(r)
  {
    CollectedEntriesFirst(n, things, entryCount);
    SortedNodeArranged(n, subcategories, things);
    EraseRebuilt(n, subcategories, TitlesOf(SortByKey(things)));
  }

  /** Sorting leaves entries, sub-categories and sort keys as they are, and orders the
      `children` of every node. */
  method SortMapEntries(n: Node) returns (r: Node)
    ensures Erase(r) == Erase(n)
    ensures Ordered(r)
    decreases n
  {
    var things := EntryPairs(n);
    ghost var entryCount := |things|;
    var subcategories: map<string, Node> := map[];
    var names := n.subcategories.Keys;
    ghost var done: set<string> := {};
    while names != {}
      invariant names == n.subcategories.Keys - done && done <= n.subcategories.Keys
      invariant CollectedSoFar(n, things, entryCount, done)
      invariant SortedSoFar(n, subcategories, done)
      decreases |names|
    {
      var title :| title in names;
      CollectStep(n, things, entryCount, done, title);
      MoveToDone(names, done, n.subcategories.Keys, title);
      things := things + [(title, n.subcategories[title].sortKey)];
      var sorted := SortMapEntries(n.subcategories[title]);
      SortedStep(n, subcategories, done, title, sorted);
      subcategories := subcategories[title := sorted];
      names := names - {title};
      done := done + {title};
    }
    AllDone(names, done, n.subcategories.Keys);
    var ordered := SortByKey(things);
    r := Node(n.entries, subcategories, n.sortKey, TitlesOf(ordered));
    SortedNodeOrdered(n, subcategories, things, entryCount);
  }
}
