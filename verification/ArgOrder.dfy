/** What a call with unpacked and named arguments gathers, and in which order, said argument by argument
    (krk_processComplexArguments of src/vm.c). */
module ArgOrder {
  import opened Options
  import opened ArgBinding

  // ----- lists of lists -----

  function Flat<T>(ss: seq<seq<T>>): seq<T> {
    if ss == [] then [] else ss[0] + Flat(ss[1..])
  }

  lemma {:induction false} FlatConcat<T>(a: seq<seq<T>>, b: seq<seq<T>>)
    ensures Flat(a + b) == Flat(a) + Flat(b)
    decreases |a|
  {
    if a == [] {
      assert a + b == b;
    } else {
      assert (a + b)[1..] == a[1..] + b && (a + b)[0] == a[0];
      FlatConcat(a[1..], b);
    }
  }

  /** Each list in one piece, after those before it. */
  lemma FlatPiece<T>(ss: seq<seq<T>>, i: nat)
    requires i < |ss|
    ensures Flat(ss) == Flat(ss[..i]) + ss[i] + Flat(ss[i + 1..])
  {
    assert ss == ss[..i] + ss[i..] && ss[i..] == [ss[i]] + ss[i + 1..];
    FlatConcat(ss[..i], ss[i..]);
    FlatConcat([ss[i]], ss[i + 1..]);
    assert Flat([ss[i]]) == ss[i] + Flat<T>([]) by { assert [ss[i]][1..] == []; }
  }

  lemma FlatLast<T>(ss: seq<seq<T>>, s: seq<T>)
    ensures Flat(ss + [s]) == Flat(ss) + s
  {
    FlatConcat(ss, [s]);
    assert [s][1..] == [] && Flat([s]) == s + Flat<T>([]);
  }

  // ----- what one argument is -----

  /** The positional values one argument stands for: those of an iterable, or the value itself. */
  function Items<V>(key: Value<V>, value: Value<V>, unpack: Unpack<V>): seq<Value<V>> {
    if key == Kw(KWARGS_LIST) then (if unpack(value).Some? then unpack(value).value else [])
    else if key == Kw(KWARGS_SINGLE) then [value]
    else []
  }

  /** The names one argument stands for: its own, or those of a dict, as far as its keys are strings. */
  function Names<V>(key: Value<V>, value: Value<V>): Keywords<V> {
    if key.Text? then [(key.name, value)]
    else if key == Kw(KWARGS_DICT) && value.DictOf? && StringKeys(value.pairs) then Named(value.pairs)
    else []
  }

  predicate StringKeys<V>(pairs: seq<(Value<V>, Value<V>)>) {
    forall i | 0 <= i < |pairs| :: pairs[i].0.Text?
  }

  function Named<V>(pairs: seq<(Value<V>, Value<V>)>): (r: Keywords<V>)
    requires StringKeys(pairs)
    ensures |r| == |pairs| && forall i | 0 <= i < |r| :: r[i] == (pairs[i].0.name, pairs[i].1)
  {
    seq(|pairs|, i requires 0 <= i < |pairs| => (pairs[i].0.name, pairs[i].1))
  }

  /** An unpacking that fails, a ** that is no dict, or a key in it that is no string. */
  predicate Faulty<V>(key: Value<V>, value: Value<V>, unpack: Unpack<V>) {
    || (key == Kw(KWARGS_LIST) && unpack(value).None?)
    || (key == Kw(KWARGS_DICT) && !(value.DictOf? && StringKeys(value.pairs)))
  }

  function AllItems<V>(extras: seq<Value<V>>, unpack: Unpack<V>): (r: seq<seq<Value<V>>>)
    requires |extras| % 2 == 0
    ensures |r| == |extras| / 2
  {
    seq(|extras| / 2, i requires 0 <= i < |extras| / 2 => Items(extras[2 * i], extras[2 * i + 1], unpack))
  }

  function AllNames<V>(extras: seq<Value<V>>): (r: seq<Keywords<V>>)
    requires |extras| % 2 == 0
    ensures |r| == |extras| / 2
  {
    seq(|extras| / 2, i requires 0 <= i < |extras| / 2 => Names(extras[2 * i], extras[2 * i + 1]))
  }

  ghost predicate AnyFaulty<V>(extras: seq<Value<V>>, unpack: Unpack<V>)
    requires |extras| % 2 == 0
  {
    exists i :: 0 <= i < |extras| / 2 && Faulty(extras[2 * i], extras[2 * i + 1], unpack)
  }

  // ----- one argument -----

  lemma NoTwice<V>(kws: Keywords<V>, name: Name, value: Value<V>)
    requires DistinctNames(kws)
    ensures DistinctNames(kws + [(name, value)]) <==> !HasName(kws, name)
  {
    var all := kws + [(name, value)];
    if i :| 0 <= i < |kws| && kws[i].0 == name {
      assert all[i].0 == all[|kws|].0;
    }
  }

  lemma PrefixDistinct<V>(a: Keywords<V>, b: Keywords<V>)
    requires DistinctNames(a + b)
    ensures DistinctNames(a)
  {
    forall i, j | 0 <= i < j < |a| ensures a[i].0 != a[j].0 {
      assert (a + b)[i].0 != (a + b)[j].0;
    }
  }

  lemma {:induction false} DictAdds<V>(p: seq<Value<V>>, kws: Keywords<V>, pairs: seq<(Value<V>, Value<V>)>)
    requires DistinctNames(kws)
    ensures AddDict(Gathered(p, kws), pairs)
         == if StringKeys(pairs) && DistinctNames(kws + Named(pairs)) then Gathered(p, kws + Named(pairs)) else Refused
    decreases |pairs|
  {
    hide DistinctNames, HasName;
    if pairs == [] {
      assert kws + Named(pairs) == kws;
    } else {
      var n := |pairs| - 1;
      DictAdds(p, kws, pairs[..n]);
      if StringKeys(pairs) {
        var last := [(pairs[n].0.name, pairs[n].1)];
        assert Named(pairs) == Named(pairs[..n]) + last;
        assert kws + Named(pairs) == kws + Named(pairs[..n]) + last;
        if DistinctNames(kws + Named(pairs[..n])) {
          NoTwice(kws + Named(pairs[..n]), pairs[n].0.name, pairs[n].1);
        } else if DistinctNames(kws + Named(pairs)) {
          PrefixDistinct(kws + Named(pairs[..n]), last);
        }
      }
    }
  }

  lemma OneAdds<V>(p: seq<Value<V>>, kws: Keywords<V>, key: Value<V>, value: Value<V>, unpack: Unpack<V>)
    requires DistinctNames(kws)
    ensures AddExtra(Gathered(p, kws), key, value, unpack)
         == if !Faulty(key, value, unpack) && DistinctNames(kws + Names(key, value))
            then Gathered(p + Items(key, value, unpack), kws + Names(key, value)) else Refused
  {
    hide DistinctNames, HasName;
    assert p + [] == p && kws + [] == kws;
    if key.Text? {
      NoTwice(kws, key.name, value);
    } else if key == Kw(KWARGS_DICT) && value.DictOf? {
      DictAdds(p, kws, value.pairs);
    }
  }

  // ----- all of them -----

  /** The positionals are those passed as such and then, argument by argument, what each one stands for; so are the names.
      It is refused exactly if an argument is faulty or a name comes twice. */
  lemma {:induction false} GatheredInOrder<V>(plain: seq<Value<V>>, extras: seq<Value<V>>, unpack: Unpack<V>)
    requires |extras| % 2 == 0
    ensures AddExtras(Gathered(plain, []), extras, unpack)
         == if !AnyFaulty(extras, unpack) && DistinctNames(Flat(AllNames(extras)))
            then Gathered(plain + Flat(AllItems(extras, unpack)), Flat(AllNames(extras))) else Refused
    decreases |extras|
  {
    hide DistinctNames, Faulty, Items, Names;
    if extras == [] {
      NoNames<V>();
      assert plain + [] == plain;
    } else {
      var n := |extras| - 2;
      var key, value, before := extras[n], extras[n + 1], extras[..n];
      GatheredInOrder(plain, before, unpack);
      var names := Flat(AllNames(before));
      assert AllNames(extras) == AllNames(before) + [Names(key, value)];
      assert AllItems(extras, unpack) == AllItems(before, unpack) + [Items(key, value, unpack)];
      FlatLast(AllNames(before), Names(key, value));
      FlatLast(AllItems(before, unpack), Items(key, value, unpack));
      LastFaulty(extras, unpack);
      var p := plain + Flat(AllItems(before, unpack));
      assert p + Items(key, value, unpack) == plain + (Flat(AllItems(before, unpack)) + Items(key, value, unpack));
      if DistinctNames(names) {
        OneAdds(p, names, key, value, unpack);
      } else if DistinctNames(names + Names(key, value)) {
        PrefixDistinct(names, Names(key, value));
      }
    }
  }

  lemma NoNames<V>()
    ensures DistinctNames<V>([])
  {
  }

  lemma LastFaulty<V>(extras: seq<Value<V>>, unpack: Unpack<V>)
    requires |extras| % 2 == 0 && |extras| > 0
    ensures var n := |extras| - 2;
      AnyFaulty(extras, unpack) <==> AnyFaulty(extras[..n], unpack) || Faulty(extras[n], extras[n + 1], unpack)
  {
    var n := |extras| - 2;
    var before := extras[..n];
    if i :| 0 <= i < |extras| / 2 && Faulty(extras[2 * i], extras[2 * i + 1], unpack) {
      if i < n / 2 {
        assert Faulty(before[2 * i], before[2 * i + 1], unpack);
      }
    }
    if i :| 0 <= i < |before| / 2 && Faulty(before[2 * i], before[2 * i + 1], unpack) {
      assert Faulty(extras[2 * i], extras[2 * i + 1], unpack);
    }
    assert Faulty(extras[n], extras[n + 1], unpack) ==> Faulty(extras[2 * (n / 2)], extras[2 * (n / 2) + 1], unpack);
  }

  /** The same of a call's arguments on the stack. */
  lemma CallGathers<V>(args: seq<Value<V>>, unpack: Unpack<V>)
    requires Special(args)
    ensures var m := 2 * args[|args| - 1].n;
      var plain, extras := args[..|args| - 1 - m], args[|args| - 1 - m..|args| - 1];
      && |extras| == m
      && Gather(args, unpack)
         == if !AnyFaulty(extras, unpack) && DistinctNames(Flat(AllNames(extras)))
            then Gathered(plain + Flat(AllItems(extras, unpack)), Flat(AllNames(extras))) else Refused
  {
    var m := 2 * args[|args| - 1].n;
    GatheredInOrder(args[..|args| - 1 - m], args[|args| - 1 - m..|args| - 1], unpack);
  }

  /** f(1, *[2, 3]) gathers 1, 2, 3. */
  lemma StarredInOrder<V>(a: Value<V>, b: Value<V>, c: Value<V>, list: Value<V>, unpack: Unpack<V>)
    requires unpack(list) == Some([b, c])
    ensures Gather([a, Kw(KWARGS_LIST), list, Kw(1)], unpack) == Gathered([a, b, c], [])
  {
    var args := [a, Kw(KWARGS_LIST), list, Kw(1)];
    var extras := args[1..3];
    assert extras == [Kw(KWARGS_LIST), list] && args[..1] == [a];
    CallGathers(args, unpack);
    assert AllItems(extras, unpack) == [[b, c]] && AllNames(extras) == [[]];
    FlatLast<Value<V>>([], [b, c]);
    FlatLast<(Name, Value<V>)>([], []);
    assert [[b, c]] == [] + [[b, c]];
    assert !AnyFaulty(extras, unpack);
  }

  // ----- where everything goes -----

  /** The place after the positional parameters and the list that collects what is over. */
  function KeywordsFrom(sig: Signature): nat {
    if sig.collectsArgs then |sig.positional| + 1 else |sig.positional|
  }

  ghost predicate FirstAt<T>(s: seq<T>, x: T, j: nat) {
    j < |s| && s[j] == x && x !in s[..j]
  }

  predicate Known(sig: Signature, name: Name) {
    Some(name) in sig.positional || name in sig.keyword
  }

  lemma SlotIs(sig: Signature, name: Name, j: nat)
    ensures FirstAt(sig.positional, Some(name), j) ==> SlotOf(sig, name) == Some(j)
    ensures Some(name) !in sig.positional && FirstAt(sig.keyword, name, j) ==> SlotOf(sig, name) == Some(KeywordsFrom(sig) + j)
    ensures SlotOf(sig, name).None? <==> !Known(sig, name)
  {
    var p, k := FirstPositional(sig.positional, name), FirstKeyword(sig.keyword, name);
    if FirstAt(sig.positional, Some(name), j) {
      assert !(p < j);
    }
    if FirstAt(sig.keyword, name, j) {
      assert !(k < j);
    }
  }

  /** A frame has the positional parameters, the list, the keyword-only ones and the dict, in this order; the first take the
      positional arguments, and the list, if there is one, those that are over. */
  lemma PositionalsPlaced<V>(sig: Signature, positionals: seq<Value<V>>, kws: Keywords<V>)
    requires Bind(sig, positionals, kws).Frame?
    ensures var slots, p := Bind(sig, positionals, kws).slots, |sig.positional|;
      && |slots| == KeywordsFrom(sig) + |sig.keyword| + (if sig.collectsKws then 1 else 0)
      && (forall i | 0 <= i < p && i < |positionals| :: slots[i] == positionals[i])
      && (sig.collectsArgs ==> slots[p] == ListOf(if |positionals| > p then positionals[p..] else []))
      && (!sig.collectsArgs ==> |positionals| <= p)
  {
  }

  /** A named argument is in the slot of the first parameter of that name. */
  lemma NamePlaced<V>(sig: Signature, positionals: seq<Value<V>>, kws: Keywords<V>, k: nat, j: nat)
    requires Bind(sig, positionals, kws).Frame? && k < |kws| && DistinctNames(kws)
    ensures var slots, name := Bind(sig, positionals, kws).slots, kws[k].0;
      && (FirstAt(sig.positional, Some(name), j) ==> j < |slots| && slots[j] == kws[k].1)
      && (Some(name) !in sig.positional && FirstAt(sig.keyword, name, j) ==>
            KeywordsFrom(sig) + j < |slots| && slots[KeywordsFrom(sig) + j] == kws[k].1)
      && (!Known(sig, name) ==> sig.collectsKws)
  {
    hide Bind, SlotOf;
    SlotIs(sig, kws[k].0, j);
    KeywordLands(sig, positionals, kws, k);
    FrameLength(sig, positionals, kws);
  }

  lemma FrameLength<V>(sig: Signature, positionals: seq<Value<V>>, kws: Keywords<V>)
    requires Bind(sig, positionals, kws).Frame?
    ensures |Bind(sig, positionals, kws).slots| == sig.Total()
  {
  }

  /** The names no parameter has, with their values, in the order they came. */
  function Unknown<V>(sig: Signature, kws: Keywords<V>): seq<Keywords<V>> {
    seq(|kws|, i requires 0 <= i < |kws| => if Known(sig, kws[i].0) then [] else [kws[i]])
  }

  lemma {:induction false} LeftInOrder<V>(sig: Signature, kws: Keywords<V>)
    ensures Leftover(sig, kws) == Flat(Unknown(sig, kws))
    decreases |kws|
  {
    hide SlotOf;
    if kws != [] {
      var n := |kws| - 1;
      LeftInOrder(sig, kws[..n]);
      SlotIs(sig, kws[n].0, 0);
      var last := if Known(sig, kws[n].0) then [] else [kws[n]];
      assert Unknown(sig, kws) == Unknown(sig, kws[..n]) + [last];
      FlatLast(Unknown(sig, kws[..n]), last);
    }
  }

  /** The last slot of a function that takes any name is a dict of just those. */
  lemma NamesCollected<V>(sig: Signature, positionals: seq<Value<V>>, kws: Keywords<V>)
    requires Bind(sig, positionals, kws).Frame? && sig.collectsKws
    ensures var slots, left := Bind(sig, positionals, kws).slots, Flat(Unknown(sig, kws));
      && slots != [] && slots[|slots| - 1].DictOf? && |slots[|slots| - 1].pairs| == |left|
      && forall i | 0 <= i < |left| :: slots[|slots| - 1].pairs[i] == (Text(left[i].0), left[i].1)
  {
    LeftInOrder(sig, kws);
  }

  /** Nothing was named for a parameter. */
  ghost predicate Unnamed<V>(kws: Keywords<V>, param: Option<Name>) {
    forall k | 0 <= k < |kws| :: Some(kws[k].0) != param
  }

  /** A call is refused exactly if there are too many positional arguments and no list for them, or a name is no parameter's
      and there is no dict for it, or is that of a parameter that has a positional argument, or a parameter that needs one
      has neither. */
  lemma RefusedExactly<V>(sig: Signature, positionals: seq<Value<V>>, kws: Keywords<V>)
    requires DistinctNames(kws) && Clean(positionals, kws) && sig.required <= |sig.positional|
    requires forall i, j | 0 <= i < j < |sig.positional| && sig.positional[i].Some? :: sig.positional[i] != sig.positional[j]
    ensures Bind(sig, positionals, kws).Rejected? <==>
      || (|positionals| > |sig.positional| && !sig.collectsArgs)
      || (exists k :: 0 <= k < |kws| && !Known(sig, kws[k].0) && !sig.collectsKws)
      || (exists k, i :: 0 <= k < |kws| && 0 <= i < |sig.positional| && i < |positionals| && sig.positional[i] == Some(kws[k].0))
      || (exists i :: |positionals| <= i < sig.required && Unnamed(kws, sig.positional[i]))
  {
    hide SlotOf, DistinctNames, Clean;
    forall k | 0 <= k < |kws|
      ensures Clash(sig, |positionals|, kws[k].0) <==>
        || (!Known(sig, kws[k].0) && !sig.collectsKws)
        || exists i :: 0 <= i < |sig.positional| && i < |positionals| && sig.positional[i] == Some(kws[k].0)
    {
      ClashIs(sig, |positionals|, kws[k].0);
    }
    forall i | 0 <= i < sig.required
      ensures KeywordFor(sig, kws, i).Kw? <==> Unnamed(kws, sig.positional[i])
    {
      RequiredNamed(sig, positionals, kws, i);
    }
  }

  lemma ClashIs(sig: Signature, count: nat, name: Name)
    requires forall i, j | 0 <= i < j < |sig.positional| && sig.positional[i].Some? :: sig.positional[i] != sig.positional[j]
    ensures Clash(sig, count, name) <==>
      || (!Known(sig, name) && !sig.collectsKws)
      || exists i :: 0 <= i < |sig.positional| && i < count && sig.positional[i] == Some(name)
  {
    SlotIs(sig, name, 0);
    if i :| 0 <= i < |sig.positional| && sig.positional[i] == Some(name) {
      assert FirstPositional(sig.positional, name) == i;
    }
  }

  lemma {:induction false} RequiredNamed<V>(sig: Signature, positionals: seq<Value<V>>, kws: Keywords<V>, i: nat)
    requires i < |sig.positional| && DistinctNames(kws) && Clean(positionals, kws)
    requires forall i, j | 0 <= i < j < |sig.positional| && sig.positional[i].Some? :: sig.positional[i] != sig.positional[j]
    ensures KeywordFor(sig, kws, i).Kw? <==> Unnamed(kws, sig.positional[i])
  {
    if k :| 0 <= k < |kws| && Some(kws[k].0) == sig.positional[i] {
      assert SlotOf(sig, kws[k].0) == Some(i) by { assert FirstPositional(sig.positional, kws[k].0) == i; }
      KeywordForUnique(sig, kws, k);
    } else {
      NothingFor(sig, kws, i);
    }
  }

  lemma {:induction false} NothingFor<V>(sig: Signature, kws: Keywords<V>, i: nat)
    requires i < |sig.positional| && Unnamed(kws, sig.positional[i])
    ensures KeywordFor(sig, kws, i) == Kw(0)
    decreases |kws|
  {
    if kws != [] {
      NothingFor(sig, kws[..|kws| - 1], i);
    }
  }
}
