/** What the uncached walk up the base chain finds, and what a special slot may keep, said along the chain. */
module MethodLaws {
  import opened Options
  import opened MethodCache

  /** The classes from c upward, each the base of the one before. */
  ghost predicate Upward<V>(cs: Classes<V>, c: ClassId, chain: seq<ClassId>) {
    && chain != [] && chain[0] == c && (forall i | 0 <= i < |chain| :: chain[i] < |cs|)
    && forall i | 0 <= i < |chain| - 1 :: cs[chain[i]].base == Some(chain[i + 1])
  }

  /** Only the last of them may have the name. */
  ghost predicate NotBefore<V>(cs: Classes<V>, chain: seq<ClassId>, name: Name)
    requires forall i | 0 <= i < |chain| :: chain[i] < |cs|
  {
    forall i | 0 <= i < |chain| - 1 :: name !in cs[chain[i]].methods
  }

  /** The nearest class that has the name gives it, its own table before its base's; without one the name is missing. */
  lemma {:induction false} NearestFound<V>(cs: Classes<V>, c: ClassId, name: Name, chain: seq<ClassId>)
    requires Tree(cs) && c < |cs| && Upward(cs, c, chain) && NotBefore(cs, chain, name)
    ensures var last := chain[|chain| - 1];
      && (name in cs[last].methods ==> Find(cs, c, name) == In(last, cs[last].methods[name]))
      && (name !in cs[last].methods && cs[last].base.None? ==> Find(cs, c, name) == Missing)
    decreases |chain|
  {
    if |chain| > 1 {
      assert cs[chain[0]].base == Some(chain[1]) && name !in cs[chain[0]].methods;
      NearestFound(cs, chain[1], name, chain[1..]);
    }
  }

  /** A special slot keeps what the walk finds if that may be called, and nothing otherwise. */
  lemma SpecialKeeps<V>(cs: Classes<V>, callable: V -> bool, c: ClassId, name: Name, v: V)
    requires Tree(cs) && c < |cs|
    ensures Special(cs, callable, c, name) == Some(v) <==> callable(v) && exists o :: Find(cs, c, name) == In(o, v)
  {
    match Find(cs, c, name)
    case Missing =>
    case In(o, w) =>
      if w == v {
        assert Find(cs, c, name) == In(o, v);
      }
  }
}
