/** `initialize_discussion_info` and its cached result: a first pass over the course's
    modules records every discussion's location and title by id and groups pending
    entries by normalised category; a second pass files them into the category tree,
    which is then sorted. The result is computed once and kept. */
module DiscussionInfo {
  import opened Wrappers
  import opened CategoryPaths
  import opened CategoryTree
  import CategorySort
  import opened KeySets

  /** A course-content location; only `category` is inspected. */
  datatype Location = Location(tag: string, org: string, course: string, category: string, name: string)

  /** A module of the course as the module store lists it: its location and metadata. */
  datatype CourseModule = CourseModule(location: Location, metadata: map<string, string>)

  /** What the id map records for a discussion: its module's location and title. */
  datatype IdMapEntry = IdMapEntry(location: Location, title: string)

  /** The `KeyError` raised when a discussion module lacks a metadata key. */
  datatype MetadataError = MissingMetadata(key: string)

  /** The two results of the first pass: the id map and the pending entries by category. */
  datatype Collected = Collected(idMap: map<string, IdMapEntry>, pending: map<string, seq<PendingEntry>>)

  /** The cached `_DISCUSSIONINFO`. */
  datatype Info = Info(idMap: map<string, IdMapEntry>, categoryMap: Node)

  predicate IsDiscussion(m: CourseModule) {
    m.location.category == "discussion"
  }

  /** The first of the metadata keys read for a discussion (`id`, then
      `discussion_category`, then `for`) that is absent. */
  function MissingKey(m: CourseModule): (r: Option<string>)
    ensures r.None? <==> "id" in m.metadata && "discussion_category" in m.metadata && "for" in m.metadata
  {
    if "id" !in m.metadata then Some("id")
    else if "discussion_category" !in m.metadata then Some("discussion_category")
    else if "for" !in m.metadata then Some("for")
    else None
  }

  /** A discussion module whose metadata makes the first pass raise. */
  predicate Faulty(m: CourseModule) {
    IsDiscussion(m) && MissingKey(m).Some?
  }

  /** The module's configured sort key, or its title when none is configured. */
  function SortKeyOf(m: CourseModule): string
    requires MissingKey(m).None?
  {
    if "sort_key" in m.metadata then m.metadata["sort_key"] else m.metadata["for"]
  }

  function PendingEntryOf(m: CourseModule): PendingEntry
    requires MissingKey(m).None?
  {
    PendingEntry(m.metadata["for"], m.metadata["id"], SortKeyOf(m))
  }

  /** The normalised category a well-formed discussion module is grouped under. */
  function CategoryKey(m: CourseModule): string
    requires MissingKey(m).None?
  {
    NormalizeCategory(m.metadata["discussion_category"])
  }

  /** `m` is a well-formed discussion grouped under category `c`. */
  predicate FiledUnder(m: CourseModule, c: string) {
    IsDiscussion(m) && MissingKey(m).None? && CategoryKey(m) == c
  }

  /** One iteration of the first loop, for a well-formed discussion module. */
  function CollectOne(acc: Collected, m: CourseModule): Collected
    requires MissingKey(m).None?
  {
    var c := CategoryKey(m);
    var sofar := if c in acc.pending then acc.pending[c] else [];
    Collected(
      acc.idMap[m.metadata["id"] := IdMapEntry(m.location, m.metadata["for"])],
      acc.pending[c := sofar + [PendingEntryOf(m)]])
  }

  /** The first loop over the modules, in the store's iteration order. It can only fail
      with the `KeyError` of one of the three required keys, and every category it groups
      holds at least one pending entry. */
  function CollectSpec(ms: seq<CourseModule>): (r: Result<Collected, MetadataError>)
    ensures r.Failure? ==> r.error.key in {"id", "discussion_category", "for"}
    ensures r.Success? ==> forall c :: c in r.value.pending ==> |r.value.pending[c]| >= 1
  {
    if ms == [] then Success(Collected(map[], map[]))
    else
      var m := ms[|ms| - 1];
      var acc :- CollectSpec(ms[..|ms| - 1]);
      if !IsDiscussion(m) then Success(acc)
      else if MissingKey(m).Some? then Failure(MissingMetadata(MissingKey(m).value))
      else Success(CollectOne(acc, m))
  }

  /** The pending entries grouped under `c`, in module order. */
  function PendingFor(ms: seq<CourseModule>, c: string): seq<PendingEntry> {
    if ms == [] then []
    else
      var m := ms[|ms| - 1];
      PendingFor(ms[..|ms| - 1], c) + (if FiledUnder(m, c) then [PendingEntryOf(m)] else [])
  }

  /** `ms[i]` is the last discussion module with its id. */
  predicate LastWithId(ms: seq<CourseModule>, i: int) {
    && 0 <= i < |ms| && IsDiscussion(ms[i]) && MissingKey(ms[i]).None?
    && forall j :: i < j < |ms| && IsDiscussion(ms[j]) && MissingKey(ms[j]).None? ==>
         ms[j].metadata["id"] != ms[i].metadata["id"]
  }

  /** `ms[i]` is the last discussion module with its category and title. */
  predicate LastWithCategoryAndTitle(ms: seq<CourseModule>, i: int) {
    && 0 <= i < |ms| && IsDiscussion(ms[i]) && MissingKey(ms[i]).None?
    && forall j :: i < j < |ms| && FiledUnder(ms[j], CategoryKey(ms[i])) ==>
         ms[j].metadata["for"] != ms[i].metadata["for"]
  }

  /** The first pass fails exactly when some discussion module lacks `id`,
      `discussion_category` or `for`, and it reports the first missing key of the first
      such module. */
  lemma {:induction false} CollectFailsOnFirstFaulty(ms: seq<CourseModule>)
    ensures CollectSpec(ms).Success? <==> forall i :: 0 <= i < |ms| ==> !Faulty(ms[i])
    ensures CollectSpec(ms).Failure? ==>
              exists i :: 0 <= i < |ms| && Faulty(ms[i]) &&
                (forall j :: 0 <= j < i ==> !Faulty(ms[j])) &&
                CollectSpec(ms).error == MissingMetadata(MissingKey(ms[i]).value)
  {
    if ms != [] {
      var init := ms[..|ms| - 1];
      CollectFailsOnFirstFaulty(init);
      assert forall j :: 0 <= j < |init| ==> init[j] == ms[j];
      if CollectSpec(init).Failure? {
        var i :| 0 <= i < |init| && Faulty(init[i]) &&
                 (forall j :: 0 <= j < i ==> !Faulty(init[j])) &&
                 CollectSpec(init).error == MissingMetadata(MissingKey(init[i]).value);
        assert Faulty(ms[i]);
      } else if Faulty(ms[|ms| - 1]) {
        assert Faulty(ms[|ms| - 1]);
      }
    }
  }

  /** Each discussion's id maps to the location and title of the last discussion
      module carrying that id. */
  lemma {:induction false} CollectIdMapLastWins(ms: seq<CourseModule>, i: int)
    requires CollectSpec(ms).Success?
    requires LastWithId(ms, i)
    ensures ms[i].metadata["id"] in CollectSpec(ms).value.idMap
    ensures CollectSpec(ms).value.idMap[ms[i].metadata["id"]] ==
              IdMapEntry(ms[i].location, ms[i].metadata["for"])
  {
    var init := ms[..|ms| - 1];
    CollectSnoc(ms);
    if i < |ms| - 1 {
      assert LastWithId(init, i) by {
        assert init[i] == ms[i];
        forall j | i < j < |init| ensures init[j] == ms[j] {
        }
      }
      CollectIdMapLastWins(init, i);
    }
  }

  /** Every id in the id map is the id of some discussion module. */
  lemma {:induction false} CollectIdMapKeys(ms: seq<CourseModule>)
    requires CollectSpec(ms).Success?
    ensures forall id :: id in CollectSpec(ms).value.idMap ==>
              exists i :: 0 <= i < |ms| && IsDiscussion(ms[i]) && MissingKey(ms[i]).None? &&
                ms[i].metadata["id"] == id
  {
    if ms != [] {
      var init := ms[..|ms| - 1];
      CollectSnoc(ms);
      CollectIdMapKeys(init);
      forall i | 0 <= i < |init| ensures init[i] == ms[i] {
      }
    }
  }

  /** The first pass on a sequence ending in `m`, in terms of the pass on the rest. */
  lemma CollectSnoc(ms: seq<CourseModule>)
    requires ms != [] && CollectSpec(ms).Success?
    ensures CollectSpec(ms[..|ms| - 1]).Success?
    ensures !IsDiscussion(ms[|ms| - 1]) ==> CollectSpec(ms) == CollectSpec(ms[..|ms| - 1])
    ensures IsDiscussion(ms[|ms| - 1]) ==>
              MissingKey(ms[|ms| - 1]).None? &&
              CollectSpec(ms).value == CollectOne(CollectSpec(ms[..|ms| - 1]).value, ms[|ms| - 1])
  {
    var m := ms[|ms| - 1];
    var acc := CollectSpec(ms[..|ms| - 1]);
    if IsDiscussion(m) {
      assert CollectSpec(ms) == Success(CollectOne(acc.value, m));
    }
  }

  /** `PendingFor` on a sequence ending in `m`, in terms of the rest. */
  lemma PendingForSnoc(ms: seq<CourseModule>, c: string)
    requires ms != []
    ensures !FiledUnder(ms[|ms| - 1], c) ==> PendingFor(ms, c) == PendingFor(ms[..|ms| - 1], c)
    ensures FiledUnder(ms[|ms| - 1], c) ==>
              PendingFor(ms, c) == PendingFor(ms[..|ms| - 1], c) + [PendingEntryOf(ms[|ms| - 1])]
  {
  }

  /** Every key of the pending map is a normalised category. */
  lemma {:induction false} CollectKeysNormalized(ms: seq<CourseModule>)
    requires CollectSpec(ms).Success?
    ensures forall c :: c in CollectSpec(ms).value.pending ==> IsNormalized(c)
  {
    if ms != [] {
      var m := ms[|ms| - 1];
      CollectSnoc(ms);
      CollectKeysNormalized(ms[..|ms| - 1]);
      if IsDiscussion(m) {
        NormalizeCategoryIdempotent(m.metadata["discussion_category"]);
      }
    }
  }

  /** The normalised category of every discussion is a key of the pending map. */
  lemma {:induction false} CollectKeysCover(ms: seq<CourseModule>)
    requires CollectSpec(ms).Success?
    ensures forall i :: 0 <= i < |ms| && IsDiscussion(ms[i]) && MissingKey(ms[i]).None? ==>
              CategoryKey(ms[i]) in CollectSpec(ms).value.pending
  {
    if ms != [] {
      var init := ms[..|ms| - 1];
      CollectSnoc(ms);
      CollectKeysCover(init);
      forall i | 0 <= i < |ms| - 1 ensures ms[i] == init[i] {
      }
    }
  }

  /** Every category key holds the pending entries of exactly the well-formed discussion
      modules filed under it, in module order. */
  lemma {:induction false} CollectPendingValues(ms: seq<CourseModule>, c: string)
    requires CollectSpec(ms).Success?
    requires c in CollectSpec(ms).value.pending
    ensures CollectSpec(ms).value.pending[c] == PendingFor(ms, c)
  {
    var init := ms[..|ms| - 1];
    var m := ms[|ms| - 1];
    CollectSnoc(ms);
    PendingForSnoc(ms, c);
    var before := CollectSpec(init).value.pending;
    if c in before {
      CollectPendingValues(init, c);
    } else {
      assert FiledUnder(m, c);
      forall i | 0 <= i < |init| ensures !FiledUnder(init[i], c) {
        CollectKeysCover(init);
      }
      PendingForEmpty(init, c);
    }
  }

  lemma {:induction false} PendingForEmpty(ms: seq<CourseModule>, c: string)
    requires forall i :: 0 <= i < |ms| ==> !FiledUnder(ms[i], c)
    ensures PendingFor(ms, c) == []
  {
    if ms != [] {
      var init := ms[..|ms| - 1];
      assert forall j :: 0 <= j < |init| ==> init[j] == ms[j];
      PendingForEmpty(init, c);
    }
  }

  /** Under the category of the last module with a given category and title, that title
      is filed with the module's id and sort key (`sort_key`, or the title when absent). */
  lemma {:induction false} PendingForLastWins(ms: seq<CourseModule>, i: int)
    requires LastWithCategoryAndTitle(ms, i)
    ensures ms[i].metadata["for"] in EntriesOf(PendingFor(ms, CategoryKey(ms[i])))
    ensures EntriesOf(PendingFor(ms, CategoryKey(ms[i])))[ms[i].metadata["for"]] ==
              Entry(ms[i].metadata["id"], SortKeyOf(ms[i]))
  {
    var c := CategoryKey(ms[i]);
    var init := ms[..|ms| - 1];
    var m := ms[|ms| - 1];
    PendingForSnoc(ms, c);
    if FiledUnder(m, c) {
      EntriesOfSnoc(PendingFor(init, c), PendingEntryOf(m));
    }
    if i < |ms| - 1 {
      assert LastWithCategoryAndTitle(init, i) by {
        assert init[i] == ms[i];
        forall j | i < j < |init| ensures init[j] == ms[j] {
        }
      }
      PendingForLastWins(init, i);
    }
  }

  /** Once a prefix of the modules makes the first pass fail, the whole pass fails the
      same way. */
  lemma {:induction false} CollectFailureSticks(ms: seq<CourseModule>, k: nat)
    requires k <= |ms| && CollectSpec(ms[..k]).Failure?
    ensures CollectSpec(ms) == CollectSpec(ms[..k])
    decreases |ms| - k
  {
    if k == |ms| {
      assert ms[..k] == ms;
    } else {
      assert ms[..k + 1][..k] == ms[..k];
      CollectFailureSticks(ms, k + 1);
    }
  }

  /** The first loop of `initialize_discussion_info`. */
  method CollectDiscussions(ms: seq<CourseModule>) returns (r: Result<Collected, MetadataError>)
    ensures r == CollectSpec(ms)
  {
    var idMap: map<string, IdMapEntry> := map[];
    var pending: map<string, seq<PendingEntry>> := map[];
    for i := 0 to |ms|
      invariant CollectSpec(ms[..i]) == Success(Collected(idMap, pending))
    {
      var m := ms[i];
      assert ms[..i + 1][..i] == ms[..i];
      if m.location.category == "discussion" {
        if "id" !in m.metadata {
          CollectFailureSticks(ms, i + 1);
          return Failure(MissingMetadata("id"));
        }
        var id := m.metadata["id"];
        if "discussion_category" !in m.metadata {
          CollectFailureSticks(ms, i + 1);
          return Failure(MissingMetadata("discussion_category"));
        }
        var category := m.metadata["discussion_category"];
        if "for" !in m.metadata {
          CollectFailureSticks(ms, i + 1);
          return Failure(MissingMetadata("for"));
        }
        var title := m.metadata["for"];
        var sortKey := if "sort_key" in m.metadata then m.metadata["sort_key"] else title;
        idMap := idMap[id := IdMapEntry(m.location, title)];
        category := NormalizeCategory(category);
        var sofar := if category in pending then pending[category] else [];
        pending := pending[category := sofar + [PendingEntry(title, id, sortKey)]];
      }
    }
    assert ms[..|ms|] == ms;
    r := Success(Collected(idMap, pending));
  }

  /** The tree path of every pending category: its components split at `/` and stripped. */
  function PathsOf(pending: map<string, seq<PendingEntry>>): map<string, seq<string>> {
    map c | c in pending :: CategoryPath(c)
  }

  /** Distinct categories have distinct paths. */
  ghost predicate DistinctPaths(paths: map<string, seq<string>>) {
    forall c1, c2 :: c1 in paths && c2 in paths && paths[c1] == paths[c2] ==> c1 == c2
  }

  /** The node at each category's path files exactly that category's entries. */
  ghost predicate FilesCategories(root: Node, pending: map<string, seq<PendingEntry>>,
                                  paths: map<string, seq<string>>, done: set<string>) {
    forall c :: c in done && c in pending && c in paths ==>
      Walk(root, paths[c]).Some? && Walk(root, paths[c]).value.entries == EntriesOf(pending[c])
  }

  /** Nodes at no category's path file nothing. */
  ghost predicate FilesNothingElse(root: Node, paths: map<string, seq<string>>, done: set<string>) {
    forall q :: Walk(root, q).Some? && (forall c :: c in done && c in paths ==> paths[c] != q) ==>
      Walk(root, q).value.entries == map[]
  }

  /** Every node below the root carries its own name as sort key. */
  ghost predicate NamedBySortKey(root: Node) {
    forall q :: Walk(root, q).Some? && |q| >= 1 ==> Walk(root, q).value.sortKey == q[|q| - 1]
  }

  /** Every node below the root lies on some category's path. */
  ghost predicate OnCategoryPaths(root: Node, paths: map<string, seq<string>>, done: set<string>) {
    forall q :: Walk(root, q).Some? && |q| >= 1 ==>
      exists c :: c in done && c in paths && IsPrefix(q, paths[c])
  }

  /** The category tree holds what the pending entries of the categories in `done`
      put there and nothing else. */
  ghost predicate BuiltFrom(root: Node, pending: map<string, seq<PendingEntry>>,
                            paths: map<string, seq<string>>, done: set<string>) {
    && done <= pending.Keys
    && done <= paths.Keys
    && root.sortKey == ""
    && FilesCategories(root, pending, paths, done)
    && FilesNothingElse(root, paths, done)
    && NamedBySortKey(root)
    && OnCategoryPaths(root, paths, done)
  }

  lemma DistinctKeyPaths(pending: map<string, seq<PendingEntry>>)
    requires forall c :: c in pending ==> IsNormalized(c)
    ensures DistinctPaths(PathsOf(pending))
  {
    forall c1, c2 | c1 in pending && c2 in pending && CategoryPath(c1) == CategoryPath(c2)
      ensures c1 == c2
    {
      NormalizedCategoryDeterminedByPath(c1, c2);
    }
  }

  lemma EmptyRootBuilt(pending: map<string, seq<PendingEntry>>, paths: map<string, seq<string>>)
    ensures BuiltFrom(EmptyRoot, pending, paths, {})
  {
    forall q | |q| >= 1 ensures Walk(EmptyRoot, q).None? {
    }
  }

  /** Inserting category `c` leaves what the other categories' nodes file alone. */
  lemma InsertKeepsFiled(root: Node, pending: map<string, seq<PendingEntry>>,
                         paths: map<string, seq<string>>, done: set<string>, c: string)
    requires DistinctPaths(paths)
    requires FilesCategories(root, pending, paths, done)
    requires c in pending && c in paths && c !in done && |paths[c]| >= 1
    ensures forall c0 :: c0 in done && c0 in pending && c0 in paths ==>
              Walk(InsertPath(root, paths[c], pending[c]), paths[c0]).Some? &&
              Walk(InsertPath(root, paths[c], pending[c]), paths[c0]).value.entries == EntriesOf(pending[c0])
  {
    forall c0 | c0 in done && c0 in pending && c0 in paths
      ensures Walk(InsertPath(root, paths[c], pending[c]), paths[c0]).Some?
      ensures Walk(InsertPath(root, paths[c], pending[c]), paths[c0]).value.entries == EntriesOf(pending[c0])
    {
      assert paths[c0] != paths[c];
      WalkInsertPath(root, paths[c], pending[c], paths[c0]);
    }
  }

  /** Before category `c` is inserted, the node at its path (if any) files nothing. */
  lemma NothingFiledYet(root: Node, paths: map<string, seq<string>>, done: set<string>, c: string)
    requires DistinctPaths(paths)
    requires FilesNothingElse(root, paths, done)
    requires c in paths && c !in done
    ensures Walk(root, paths[c]).Some? ==> Walk(root, paths[c]).value.entries == map[]
  {
    forall c1 | c1 in done && c1 in paths ensures paths[c1] != paths[c] {
    }
  }

  /** After inserting category `c`, its node files exactly its entries. */
  lemma InsertFilesNew(root: Node, es: seq<PendingEntry>, p: seq<string>)
    requires |p| >= 1
    requires Walk(root, p).Some? ==> Walk(root, p).value.entries == map[]
    ensures Walk(InsertPath(root, p, es), p).Some?
    ensures Walk(InsertPath(root, p, es), p).value.entries == EntriesOf(es)
  {
    WalkInsertPath(root, p, es, p);
  }

  lemma InsertFilesCategories(root: Node, pending: map<string, seq<PendingEntry>>,
                              paths: map<string, seq<string>>, done: set<string>, c: string)
    requires DistinctPaths(paths)
    requires FilesCategories(root, pending, paths, done) && FilesNothingElse(root, paths, done)
    requires c in pending && c in paths && c !in done && |paths[c]| >= 1
    ensures FilesCategories(InsertPath(root, paths[c], pending[c]), pending, paths, done + {c})
  {
    InsertKeepsFiled(root, pending, paths, done, c);
    NothingFiledYet(root, paths, done, c);
    InsertFilesNew(root, pending[c], paths[c]);
  }

  lemma InsertFilesNothingElse(root: Node, es: seq<PendingEntry>, paths: map<string, seq<string>>,
                               done: set<string>, c: string)
    requires FilesNothingElse(root, paths, done)
    requires c in paths && |paths[c]| >= 1
    ensures FilesNothingElse(InsertPath(root, paths[c], es), paths, done + {c})
  {
    forall q | Walk(InsertPath(root, paths[c], es), q).Some? &&
               (forall c0 :: c0 in done + {c} && c0 in paths ==> paths[c0] != q)
      ensures Walk(InsertPath(root, paths[c], es), q).value.entries == map[]
    {
      WalkInsertPath(root, paths[c], es, q);
    }
  }

  lemma InsertNamedBySortKey(root: Node, es: seq<PendingEntry>, p: seq<string>)
    requires NamedBySortKey(root) && |p| >= 1
    ensures NamedBySortKey(InsertPath(root, p, es))
  {
    forall q | Walk(InsertPath(root, p, es), q).Some? && |q| >= 1
      ensures Walk(InsertPath(root, p, es), q).value.sortKey == q[|q| - 1]
    {
      WalkInsertPath(root, p, es, q);
    }
  }

  lemma InsertOnCategoryPaths(root: Node, es: seq<PendingEntry>, paths: map<string, seq<string>>,
                              done: set<string>, c: string)
    requires OnCategoryPaths(root, paths, done)
    requires c in paths && |paths[c]| >= 1
    ensures OnCategoryPaths(InsertPath(root, paths[c], es), paths, done + {c})
  {
    forall q | Walk(InsertPath(root, paths[c], es), q).Some? && |q| >= 1
      ensures exists c0 :: c0 in done + {c} && c0 in paths && IsPrefix(q, paths[c0])
    {
      WalkInsertPath(root, paths[c], es, q);
      if !IsPrefix(q, paths[c]) {
        var c0 :| c0 in done && c0 in paths && IsPrefix(q, paths[c0]);
        assert c0 in done + {c};
      }
    }
  }

  /** Inserting one more category keeps the tree built from the categories so far. */
  lemma InsertPreservesBuilt(root: Node, pending: map<string, seq<PendingEntry>>,
                             paths: map<string, seq<string>>, done: set<string>, c: string)
    requires DistinctPaths(paths)
    requires BuiltFrom(root, pending, paths, done)
    requires c in pending && c in paths && c !in done && |paths[c]| >= 1
    ensures BuiltFrom(InsertPath(root, paths[c], pending[c]), pending, paths, done + {c})
  {
    InsertFilesCategories(root, pending, paths, done, c);
    InsertFilesNothingElse(root, pending[c], paths, done, c);
    InsertNamedBySortKey(root, pending[c], paths[c]);
    InsertOnCategoryPaths(root, pending[c], paths, done, c);
    AddToSubset(done, c, pending.Keys);
    AddToSubset(done, c, paths.Keys);
  }

  /** Sorting does not disturb what the tree files where. */
  lemma BuiltFromErase(a: Node, b: Node, pending: map<string, seq<PendingEntry>>,
                       paths: map<string, seq<string>>, done: set<string>)
    requires Erase(a) == Erase(b)
    requires BuiltFrom(a, pending, paths, done)
    ensures BuiltFrom(b, pending, paths, done)
  {
    assert Erase(a).sortKey == a.sortKey && Erase(b).sortKey == b.sortKey;
    forall q ensures Walk(a, q).Some? <==> Walk(b, q).Some?
      ensures Walk(a, q).Some? ==> Walk(a, q).value.entries == Walk(b, q).value.entries &&
                                   Walk(a, q).value.sortKey == Walk(b, q).value.sortKey
    {
      WalkErase(a, b, q);
    }
  }

  /** The second loop of `initialize_discussion_info`: every category of the first pass
      inserted into an initially empty tree, in the dictionary's iteration order. */
  method BuildCategoryMap(pending: map<string, seq<PendingEntry>>) returns (root: Node)
    requires forall c :: c in pending ==> IsNormalized(c)
    ensures BuiltFrom(root, pending, PathsOf(pending), pending.Keys)
  {
    var paths := PathsOf(pending);
    DistinctKeyPaths(pending);
    root := EmptyRoot;
    EmptyRootBuilt(pending, paths);
    var todo := pending.Keys;
    ghost var done: set<string> := {};
    while todo != {}
      invariant todo == pending.Keys - done && done <= pending.Keys
      invariant BuiltFrom(root, pending, paths, done)
      decreases |todo|
    {
      var categoryPath :| categoryPath in todo;
      var path := paths[categoryPath];
      InsertPreservesBuilt(root, pending, paths, done, categoryPath);
      MoveToDone(todo, done, pending.Keys, categoryPath);
      root := InsertPath(root, path, pending[categoryPath]);
      done := done + {categoryPath};
      todo := todo - {categoryPath};
    }
    AllDone(todo, done, pending.Keys);
  }

  /** `info` is what `initialize_discussion_info` computes from `ms`. */
  ghost predicate InfoFor(info: Info, ms: seq<CourseModule>) {
    && CollectSpec(ms).Success?
    && info.idMap == CollectSpec(ms).value.idMap
    && BuiltFrom(info.categoryMap, CollectSpec(ms).value.pending, PathsOf(CollectSpec(ms).value.pending),
                 CollectSpec(ms).value.pending.Keys)
    && CategorySort.Ordered(info.categoryMap)
  }

  /** Each discussion is filed, under its title, in the node reached by following its
      stripped category components, with its id and its sort key (the title when the
      metadata has none), unless a later discussion in the same category has the same
      title; every node on the way is named by its sort key. */
  lemma DiscussionFiled(info: Info, ms: seq<CourseModule>, i: int)
    requires InfoFor(info, ms)
    requires LastWithCategoryAndTitle(ms, i)
    ensures Walk(info.categoryMap, CategoryPath(ms[i].metadata["discussion_category"])).Some?
    ensures ms[i].metadata["for"] in
              Walk(info.categoryMap, CategoryPath(ms[i].metadata["discussion_category"])).value.entries
    ensures Walk(info.categoryMap, CategoryPath(ms[i].metadata["discussion_category"])).value
              .entries[ms[i].metadata["for"]] ==
              Entry(ms[i].metadata["id"],
                    if "sort_key" in ms[i].metadata then ms[i].metadata["sort_key"] else ms[i].metadata["for"])
  {
    var c := CategoryKey(ms[i]);
    CollectKeysCover(ms);
    CollectPendingValues(ms, c);
    PendingForLastWins(ms, i);
  }

  /** Each discussion's id maps to its location and title (the last module's, for an id
      used twice). */
  lemma DiscussionInIdMap(info: Info, ms: seq<CourseModule>, i: int)
    requires InfoFor(info, ms)
    requires LastWithId(ms, i)
    ensures ms[i].metadata["id"] in info.idMap
    ensures info.idMap[ms[i].metadata["id"]] == IdMapEntry(ms[i].location, ms[i].metadata["for"])
  {
    CollectIdMapLastWins(ms, i);
  }

  /** The module-level cache `_DISCUSSIONINFO`: empty until the first successful
      initialisation, unchanged afterwards. */
  class DiscussionInfoCache {
    var info: Option<Info>

    constructor ()
      ensures info == None
    {
      info := None;
    }

    /** `initialize_discussion_info`: does nothing when the cache is already set;
        otherwise computes the information from `ms` and caches it, or raises (leaving
        the cache empty) when a discussion module lacks metadata. */
    method InitializeDiscussionInfo(ms: seq<CourseModule>) returns (r: Result<Info, MetadataError>)
      modifies this
      ensures old(info).Some? ==> info == old(info) && r == Success(old(info).value)
      ensures old(info).None? && CollectSpec(ms).Failure? ==>
                info == None && r == Failure(CollectSpec(ms).error)
      ensures old(info).None? && CollectSpec(ms).Success? ==>
                r.Success? && info == Some(r.value) && InfoFor(r.value, ms)
    {
      if info.Some? {
        return Success(info.value);
      }
      var collected := CollectDiscussions(ms);
      if collected.Failure? {
        return Failure(collected.error);
      }
      CollectKeysNormalized(ms);
      var tree := BuildCategoryMap(collected.value.pending);
      var sorted := CategorySort.SortMapEntries(tree);
      BuiltFromErase(tree, sorted, collected.value.pending, PathsOf(collected.value.pending),
                     collected.value.pending.Keys);
      var computed := Info(collected.value.idMap, sorted);
      info := Some(computed);
      r := Success(computed);
    }

    /** `get_discussion_id_map`: the cached id map, initialising the cache if needed. */
    method GetDiscussionIdMap(ms: seq<CourseModule>) returns (r: Result<map<string, IdMapEntry>, MetadataError>)
      modifies this
      ensures old(info).Some? ==> info == old(info) && r == Success(old(info).value.idMap)
      ensures info.Some? <==> r.Success?
      ensures info.Some? ==> r.value == info.value.idMap
      ensures old(info).None? ==> (r.Success? <==> CollectSpec(ms).Success?)
      ensures old(info).None? && info.Some? ==> InfoFor(info.value, ms)
    {
      var initialized := InitializeDiscussionInfo(ms);
      if initialized.Failure? {
        return Failure(initialized.error);
      }
      r := Success(initialized.value.idMap);
    }

    /** `get_discussion_title`: the cached title of a discussion, or `(no title)` for an
        unknown id. */
    method GetDiscussionTitle(ms: seq<CourseModule>, discussionId: string) returns (r: Result<string, MetadataError>)
      modifies this
      ensures old(info).Some? ==> info == old(info)
      ensures info.Some? <==> r.Success?
      ensures info.Some? && discussionId in info.value.idMap ==> r.value == info.value.idMap[discussionId].title
      ensures info.Some? && discussionId !in info.value.idMap ==> r.value == "(no title)"
      ensures old(info).None? ==> (r.Success? <==> CollectSpec(ms).Success?)
      ensures old(info).None? && info.Some? ==> InfoFor(info.value, ms)
    {
      var initialized := InitializeDiscussionInfo(ms);
      if initialized.Failure? {
        return Failure(initialized.error);
      }
      var idMap := initialized.value.idMap;
      r := Success(if discussionId in idMap then idMap[discussionId].title else "(no title)");
    }

    /** `get_discussion_category_map`: the cached, sorted category tree. */
    method GetDiscussionCategoryMap(ms: seq<CourseModule>) returns (r: Result<Node, MetadataError>)
      modifies this
      ensures old(info).Some? ==> info == old(info) && r == Success(old(info).value.categoryMap)
      ensures info.Some? <==> r.Success?
      ensures info.Some? ==> r.value == info.value.categoryMap
      ensures old(info).None? ==> (r.Success? <==> CollectSpec(ms).Success?)
      ensures old(info).None? && info.Some? ==> InfoFor(info.value, ms)
    {
      var initialized := InitializeDiscussionInfo(ms);
      if initialized.Failure? {
        return Failure(initialized.error);
      }
      r := Success(initialized.value.categoryMap);
    }
  }
}
