/** How a discussion module's `discussion_category` metadata is turned into a path of
    category names: split on `/`, strip each component, and (for the key under which the
    module is grouped) join the components again with `" / "`. */
module CategoryPaths {
  import PyStr

  /** Every component with its surrounding white space removed. */
  function StripAll(parts: seq<string>): (r: seq<string>)
    ensures |r| == |parts|
    ensures forall k :: 0 <= k < |r| ==> r[k] == PyStr.Strip(parts[k])
  {
    if parts == [] then [] else [PyStr.Strip(parts[0])] + StripAll(parts[1..])
  }

  /** The category split at every `/`, each component stripped: never empty, and every
      component is stripped and free of `/`. */
  function CategoryPath(category: string): (r: seq<string>)
    ensures |r| >= 1
    ensures forall k :: 0 <= k < |r| ==> PyStr.IsStripped(r[k]) && '/' !in r[k]
  {
    var parts := PyStr.Split(category, '/');
    var r := StripAll(parts);
    forall k | 0 <= k < |r| ensures PyStr.IsStripped(r[k]) && '/' !in r[k] {
      PyStr.StripIsStripped(parts[k]);
      if '/' in r[k] {
        PyStr.StripKeepsCharacters(parts[k], '/');
      }
    }
    r
  }

  /** The category's path joined again with a single space on each side of every `/`.
      Parsing the result gives back the category's own path: the spacing introduced here
      is stripped off again. */
  function NormalizeCategory(category: string): (r: string)
    ensures CategoryPath(r) == CategoryPath(category)
  {
    var path := CategoryPath(category);
    StripSplitJoin(path);
    StripAllOfStripped(path);
    PyStr.Join(path, " / ")
  }

  predicate IsNormalized(category: string) {
    NormalizeCategory(category) == category
  }

  lemma StripAllCons(x: string, xs: seq<string>)
    ensures StripAll([x] + xs) == [PyStr.Strip(x)] + StripAll(xs)
  {
    assert ([x] + xs)[1..] == xs;
  }

  lemma StripAllOfStripped(parts: seq<string>)
    requires forall k :: 0 <= k < |parts| ==> PyStr.IsStripped(parts[k])
    ensures StripAll(parts) == parts
  {
    forall k | 0 <= k < |parts| ensures StripAll(parts)[k] == parts[k] {
      PyStr.StrippedIsFixed(parts[k]);
    }
  }

  lemma Regroup(a: string, rest: string)
    ensures a + " / " + rest == (a + " ") + ['/'] + ([' '] + rest)
  {
    var l := a + " / " + rest;
    var r := (a + " ") + ['/'] + ([' '] + rest);
    assert |l| == |r|;
    forall k | 0 <= k < |l| ensures l[k] == r[k] {
    }
  }

  lemma JoinUnfold(parts: seq<string>)
    requires |parts| >= 2
    requires '/' !in parts[0]
    ensures '/' !in parts[0] + " "
    ensures PyStr.Join(parts, " / ") == (parts[0] + " ") + ['/'] + ([' '] + PyStr.Join(parts[1..], " / "))
  {
    assert PyStr.Join(parts, " / ") == parts[0] + " / " + PyStr.Join(parts[1..], " / ");
    Regroup(parts[0], PyStr.Join(parts[1..], " / "));
  }

  /** Joining the parts with `" / "`, splitting at `/` and stripping each component
      gives the stripped parts back. */
  lemma {:induction false} StripSplitJoin(parts: seq<string>)
    requires |parts| >= 1
    requires forall k :: 0 <= k < |parts| ==> '/' !in parts[k]
    ensures StripAll(PyStr.Split(PyStr.Join(parts, " / "), '/')) == StripAll(parts)
  {
    if |parts| == 1 {
      PyStr.SplitWithoutSeparator(parts[0], '/');
    } else {
      var rest := PyStr.Join(parts[1..], " / ");
      StripSplitJoin(parts[1..]);
      var tail := PyStr.Split(rest, '/');
      assert StripAll(tail) == StripAll(parts[1..]);
      var head := parts[0] + " ";
      JoinUnfold(parts);
      PyStr.SplitAtFirstSeparator(head, [' '] + rest, '/');
      var padded := PyStr.Split([' '] + rest, '/');
      PyStr.SplitAfterOther(' ', rest, '/');
      PyStr.StripIgnoresPadding(parts[0]);
      PyStr.StripIgnoresPadding(tail[0]);
      StripAllCons([' '] + tail[0], tail[1..]);
      StripAllCons(tail[0], tail[1..]);
      assert tail == [tail[0]] + tail[1..];
      assert StripAll(padded) == StripAll(tail);
      StripAllCons(head, padded);
      StripAllCons(parts[0], parts[1..]);
      assert parts == [parts[0]] + parts[1..];
    }
  }

  /** Normalising twice is normalising once. */
  lemma NormalizeCategoryIdempotent(category: string)
    ensures IsNormalized(NormalizeCategory(category))
  {
  }

  /** Two normalised categories with the same path are the same string, so grouping by
      the normalised key and later walking the parsed path reach distinct nodes for
      distinct keys. */
  lemma NormalizedCategoryDeterminedByPath(c1: string, c2: string)
    requires IsNormalized(c1) && IsNormalized(c2)
    requires CategoryPath(c1) == CategoryPath(c2)
    ensures c1 == c2
  {
  }
}
