/** Small facts about the sets that drive loops over a dictionary's keys: the keys still
    to visit are the keys minus those visited, and visiting one more shrinks the rest. */
module KeySets {
  lemma AddToSubset(s: set<string>, x: string, t: set<string>)
    requires s <= t && x in t
    ensures s + {x} <= t
  {
  }

  lemma MoveToDone(todo: set<string>, done: set<string>, keys: set<string>, x: string)
    requires todo == keys - done && done <= keys && x in todo
    ensures todo - {x} == keys - (done + {x}) && done + {x} <= keys
    ensures |todo - {x}| < |todo|
  {
  }

  lemma AllDone(todo: set<string>, done: set<string>, keys: set<string>)
    requires todo == keys - done && done <= keys && todo == {}
    ensures done == keys
  {
    forall x | x in keys ensures x in done {
      assert x !in todo;
    }
  }
}
