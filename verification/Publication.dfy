/** The pointer cell through which tries are published. */
module Publication {
  import opened Trie

  class Source {
    var current: Trie?

    constructor ()
      ensures current == null
    {
      current := null;
    }

    method Current() returns (t: Trie?)
      ensures t == current
    {
      t := current;
    }

    method Swap(t: Trie?)
      modifies this
      ensures current == t
    {
      current := t;
    }
  }
}
