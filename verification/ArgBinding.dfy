/** Binding arguments to parameters: krk_processComplexArguments and the first half of _callManaged of src/vm.c, on the
    thread's stack, against a binder stated slot by slot. */
module ArgBinding {
  import opened Options

  type Name = string

  /** Kw(0) is an unset argument; the other markers say what the value after them is. */
  datatype Value<V> = Kw(n: int) | Obj(v: V) | Text(name: Name) | ListOf(items: seq<Value<V>>) | DictOf(pairs: seq<(Value<V>, Value<V>)>)

  const KWARGS_SINGLE := 0x7FFFFFFF
  const KWARGS_LIST := 0x7FFFFFFE
  const KWARGS_DICT := 0x7FFFFFFD

  /** A code object's parameters; a positional-only one has no name. */
  datatype Signature = Signature(positional: seq<Option<Name>>, keyword: seq<Name>, required: nat, collectsArgs: bool, collectsKws: bool)
  {
    /** Where keyword-only arguments start. */
    function Offset(): nat {
      |positional| + if collectsArgs then 1 else 0
    }

    function Total(): nat {
      Offset() + |keyword| + if collectsKws then 1 else 0
    }
  }

  /** Iterating a value: None when it raises. */
  type Unpack<!V> = Value<V> -> Option<seq<Value<V>>>

  type Keywords<V> = seq<(Name, Value<V>)>

  // ----- gathering -----

  datatype Gathered<V> = Refused | Gathered(positionals: seq<Value<V>>, keywords: Keywords<V>)

  predicate HasName<V>(kws: Keywords<V>, name: Name) {
    exists i :: 0 <= i < |kws| && kws[i].0 == name
  }

  ghost predicate DistinctNames<V>(kws: Keywords<V>) {
    forall i, j | 0 <= i < j < |kws| :: kws[i].0 != kws[j].0
  }

  function AddKeyword<V>(g: Gathered<V>, name: Name, value: Value<V>): Gathered<V> {
    if g.Refused? || HasName(g.keywords, name) then Refused else g.(keywords := g.keywords + [(name, value)])
  }

  function AddDict<V>(g: Gathered<V>, pairs: seq<(Value<V>, Value<V>)>): Gathered<V> {
    if pairs == [] then g else
      var n := |pairs| - 1;
      var h := AddDict(g, pairs[..n]);
      if pairs[n].0.Text? then AddKeyword(h, pairs[n].0.name, pairs[n].1) else Refused
  }

  /** One argument after the first special one. */
  function AddExtra<V>(g: Gathered<V>, key: Value<V>, value: Value<V>, unpack: Unpack<V>): Gathered<V> {
    if g.Refused? then Refused else
      match key
      case Kw(n) =>
        if n == KWARGS_LIST then
          match unpack(value)
          case None => Refused
          case Some(items) => g.(positionals := g.positionals + items)
        else if n == KWARGS_DICT then (if value.DictOf? then AddDict(g, value.pairs) else Refused)
        else if n == KWARGS_SINGLE then g.(positionals := g.positionals + [value])
        else g
      case Text(name) => AddKeyword(g, name, value)
      case _ => g
  }

  /** Everything passed, left to right: keys and values alternate. */
  function AddExtras<V>(g: Gathered<V>, extras: seq<Value<V>>, unpack: Unpack<V>): Gathered<V>
    requires |extras| % 2 == 0
  {
    if extras == [] then g else
      var n := |extras| - 2;
      AddExtra(AddExtras(g, extras[..n], unpack), extras[n], extras[n + 1], unpack)
  }

  // ----- the reference binder -----

  function FirstPositional(names: seq<Option<Name>>, name: Name): (j: nat)
    ensures j <= |names| && (j < |names| ==> names[j] == Some(name)) && forall k | 0 <= k < j :: names[k] != Some(name)
  {
    if names == [] || names[0] == Some(name) then 0 else 1 + FirstPositional(names[1..], name)
  }

  function FirstKeyword(names: seq<Name>, name: Name): (j: nat)
    ensures j <= |names| && (j < |names| ==> names[j] == name) && forall k | 0 <= k < j :: names[k] != name
  {
    if names == [] || names[0] == name then 0 else 1 + FirstKeyword(names[1..], name)
  }

  /** The slot a name belongs in. */
  function SlotOf(sig: Signature, name: Name): (r: Option<nat>)
    ensures r.Some? ==> r.value < sig.Offset() + |sig.keyword| && !(r.value == |sig.positional| && sig.collectsArgs)
  {
    var j, k := FirstPositional(sig.positional, name), FirstKeyword(sig.keyword, name);
    if j < |sig.positional| then Some(j) else if k < |sig.keyword| then Some(sig.Offset() + k) else None
  }

  /** What a keyword puts in a slot. */
  function KeywordFor<V>(sig: Signature, kws: Keywords<V>, slot: nat): Value<V> {
    if kws == [] then Kw(0) else
      var n := |kws| - 1;
      if SlotOf(sig, kws[n].0) == Some(slot) then kws[n].1 else KeywordFor(sig, kws[..n], slot)
  }

  /** The keywords that have no slot. */
  function Leftover<V>(sig: Signature, kws: Keywords<V>): Keywords<V> {
    if kws == [] then [] else
      var n := |kws| - 1;
      Leftover(sig, kws[..n]) + if SlotOf(sig, kws[n].0).None? then [kws[n]] else []
  }

  function AsPairs<V>(kws: Keywords<V>): seq<(Value<V>, Value<V>)> {
    seq(|kws|, i requires 0 <= i < |kws| => (Text(kws[i].0), kws[i].1))
  }

  /** A keyword with nowhere to go, or for a slot a positional has. */
  predicate Clash(sig: Signature, positionals: nat, name: Name) {
    match SlotOf(sig, name)
    case None => !sig.collectsKws
    case Some(i) => i < |sig.positional| && i < positionals
  }

  function Beyond<V>(s: seq<V>, n: nat): seq<V> {
    if n < |s| then s[n..] else []
  }

  function SlotValue<V>(sig: Signature, positionals: seq<Value<V>>, kws: Keywords<V>, i: nat): Value<V> {
    if i < |sig.positional| then (if i < |positionals| then positionals[i] else KeywordFor(sig, kws, i))
    else if i == |sig.positional| && sig.collectsArgs then ListOf(Beyond(positionals, |sig.positional|))
    else if i < sig.Offset() + |sig.keyword| then KeywordFor(sig, kws, i)
    else DictOf(AsPairs(Leftover(sig, kws)))
  }

  datatype Binding<V> = Rejected | Frame(slots: seq<Value<V>>)

  ghost predicate Rejects<V>(sig: Signature, positionals: seq<Value<V>>, kws: Keywords<V>) {
    || (|positionals| > |sig.positional| && !sig.collectsArgs)
    || (exists k :: 0 <= k < |kws| && Clash(sig, |positionals|, kws[k].0))
    || (exists i :: 0 <= i < sig.required && i >= |positionals| && KeywordFor(sig, kws, i).Kw?)
  }

  /** Every parameter gets its positional, or its keyword, or is unset; what is over goes to a collector. */
  ghost function Bind<V>(sig: Signature, positionals: seq<Value<V>>, kws: Keywords<V>): Binding<V> {
    if Rejects(sig, positionals, kws) then Rejected
    else Frame(seq(sig.Total(), i requires 0 <= i < sig.Total() => SlotValue(sig, positionals, kws, i)))
  }

  /** A call with positionals only: collectors with nothing to hold are left for the function to fill in. */
  function BindPlain<V>(sig: Signature, args: seq<Value<V>>): Binding<V> {
    var p := |sig.positional|;
    if |args| > p && sig.collectsArgs then Frame(args[..p] + [ListOf(args[p..])] + Unset(sig.Total() - p - 1))
    else if sig.required <= |args| <= p then Frame(args + Unset(sig.Total() - |args|))
    else Rejected
  }

  function Unset<V>(n: nat): (r: seq<Value<V>>)
    ensures |r| == n && forall i | 0 <= i < n :: r[i] == Kw(0)
  {
    seq(n, _ => Kw(0))
  }

  /** A call's arguments, as they lie on the stack: a count on top says how many of them are key and value pairs. */
  ghost function Gather<V>(args: seq<Value<V>>, unpack: Unpack<V>): Gathered<V>
    requires Special(args)
  {
    var plain := |args| - 1 - 2 * args[|args| - 1].n;
    AddExtras(Gathered(args[..plain], []), args[plain..|args| - 1], unpack)
  }

  predicate Special<V>(args: seq<Value<V>>) {
    args != [] && args[|args| - 1].Kw? && 0 <= 2 * args[|args| - 1].n < |args|
  }

  ghost function BindCall<V>(sig: Signature, args: seq<Value<V>>, unpack: Unpack<V>): Binding<V> {
    if Special(args) then
      match Gather(args, unpack)
      case Refused => Rejected
      case Gathered(positionals, keywords) => Bind(sig, positionals, keywords)
    else BindPlain(sig, args)
  }

  /** No argument is itself a marker. */
  ghost predicate Clean<V>(positionals: seq<Value<V>>, kws: Keywords<V>) {
    && (forall i | 0 <= i < |positionals| :: !positionals[i].Kw?)
    && forall i | 0 <= i < |kws| :: !kws[i].1.Kw?
  }

  ghost predicate CleanCall<V>(args: seq<Value<V>>, unpack: Unpack<V>) {
    if Special(args) then Gather(args, unpack).Gathered? ==> Clean(Gather(args, unpack).positionals, Gather(args, unpack).keywords)
    else forall i | 0 <= i < |args| :: !args[i].Kw?
  }

  // ----- facts about the binder -----

  /** A slot's name; only that name goes there. */
  lemma SlotName<V>(sig: Signature, a: Name, b: Name)
    requires SlotOf(sig, a).Some? && SlotOf(sig, a) == SlotOf(sig, b)
    ensures a == b
  {
  }

  lemma {:induction false} KeywordForEarlier<V>(sig: Signature, kws: Keywords<V>, name: Name, slot: nat)
    requires SlotOf(sig, name) == Some(slot) && forall i | 0 <= i < |kws| :: kws[i].0 != name
    ensures KeywordFor(sig, kws, slot) == Kw(0)
    decreases |kws|
  {
    if kws != [] {
      var n := |kws| - 1;
      if SlotOf(sig, kws[n].0) == Some(slot) {
        SlotName<V>(sig, kws[n].0, name);
        assert false;
      }
      KeywordForEarlier(sig, kws[..n], name, slot);
    }
  }

  /** The part of a frame the stack holds before the last collector. */
  ghost function Region<V>(sig: Signature, positionals: seq<Value<V>>, kws: Keywords<V>): (r: seq<Value<V>>)
    ensures |r| == sig.Offset() + |sig.keyword|
  {
    seq(sig.Offset() + |sig.keyword|, i requires 0 <= i < sig.Offset() + |sig.keyword| => SlotValue(sig, positionals, kws, i))
  }

  /** Placing one keyword. */
  lemma RegionNext<V>(sig: Signature, positionals: seq<Value<V>>, kws: Keywords<V>, k: nat)
    requires k < |kws| && DistinctNames(kws) && !Clash(sig, |positionals|, kws[k].0)
    ensures var a, b := Region(sig, positionals, kws[..k]), Region(sig, positionals, kws[..k + 1]);
      match SlotOf(sig, kws[k].0)
      case None => b == a
      case Some(i) => i < |a| && a[i] == Kw(0) && b == a[i := kws[k].1]
  {
    var a, b := Region(sig, positionals, kws[..k]), Region(sig, positionals, kws[..k + 1]);
    assert kws[..k + 1][..k] == kws[..k] && kws[..k + 1][k] == kws[k];
    var slot := SlotOf(sig, kws[k].0);
    if slot.Some? {
      KeywordForEarlier(sig, kws[..k], kws[k].0, slot.value);
    }
    forall i | 0 <= i < |a|
      ensures b[i] == if slot == Some(i) then kws[k].1 else a[i]
    {
      assert KeywordFor(sig, kws[..k + 1], i) == if slot == Some(i) then kws[k].1 else KeywordFor(sig, kws[..k], i);
    }
  }

  /** A clash shows as a slot that is taken. */
  lemma ClashTaken<V>(sig: Signature, positionals: seq<Value<V>>, kws: Keywords<V>, k: nat)
    requires k < |kws| && DistinctNames(kws) && Clean(positionals, kws)
    requires SlotOf(sig, kws[k].0).Some?
    ensures SlotOf(sig, kws[k].0).value < |Region(sig, positionals, kws[..k])|
    ensures Clash(sig, |positionals|, kws[k].0) <==> !Region(sig, positionals, kws[..k])[SlotOf(sig, kws[k].0).value].Kw?
  {
    KeywordForEarlier(sig, kws[..k], kws[k].0, SlotOf(sig, kws[k].0).value);
  }

  class Thread<V(==)> {
    var stack: seq<Value<V>>
    const unpack: Unpack<V>

    /** krk_processComplexArguments: n positionals from `base`, m keys and values after them. */
    method ProcessComplexArguments(base: nat, n: nat, m: nat)
      returns (ok: bool, positionals: seq<Value<V>>, keywords: Keywords<V>)
      requires base + n + 2 * m <= |stack|
      ensures (if ok then Gathered(positionals, keywords) else Refused)
           == AddExtras(Gathered(stack[base..base + n], []), stack[base + n..base + n + 2 * m], unpack)
      ensures ok ==> DistinctNames(keywords)
    {
      positionals, keywords := [], [];
      var i := 0;
      while i < n
        invariant i <= n && positionals == stack[base..base + i]
      {
        positionals := positionals + [stack[base + i]];
        i := i + 1;
      }
      var start := base + n;
      ghost var first := Gathered(positionals, []);
      ghost var all := stack[start..start + 2 * m];
      assert all[..0] == [];
      i := 0;
      while i < m
        invariant i <= m && Gathered(positionals, keywords) == AddExtras(first, all[..2 * i], unpack) && DistinctNames(keywords)
      {
        var key, value := stack[start + 2 * i], stack[start + 2 * i + 1];
        ghost var g := Gathered(positionals, keywords);
        ExtrasNext(first, all, i, unpack);
        assert all[2 * i] == key && all[2 * i + 1] == value;
        var fine: bool;
        fine, positionals, keywords := ProcessOne(positionals, keywords, key, value);
        if !fine {
          RefusedStays(first, all, i + 1, m, unpack);
          assert all[..2 * m] == all;
          return false, [], [];
        }
        i := i + 1;
      }
      assert all[..2 * m] == all;
      ok := true;
    }

    method ProcessOne(positionals: seq<Value<V>>, keywords: Keywords<V>, key: Value<V>, value: Value<V>)
      returns (ok: bool, positionals': seq<Value<V>>, keywords': Keywords<V>)
      requires DistinctNames(keywords)
      ensures (if ok then Gathered(positionals', keywords') else Refused)
           == AddExtra(Gathered(positionals, keywords), key, value, unpack)
      ensures ok ==> DistinctNames(keywords')
    {
      positionals', keywords' := positionals, keywords;
      if key.Kw? {
        if key.n == KWARGS_LIST {
          var items := unpack(value);
          if items.None? {
            return false, [], [];
          }
          positionals' := positionals + items.value;
        } else if key.n == KWARGS_DICT {
          if !value.DictOf? {
            return false, [], [];
          }
          var pairs, i := value.pairs, 0;
          ghost var g := Gathered(positionals, keywords);
          assert pairs[..0] == [];
          while i < |pairs|
            invariant i <= |pairs| && Gathered(positionals, keywords') == AddDict(g, pairs[..i]) && DistinctNames(keywords')
          {
            DictNext(g, pairs, i);
            if !pairs[i].0.Text? || HasName(keywords', pairs[i].0.name) {
              DictRefused(g, pairs, i + 1);
              return false, [], [];
            }
            keywords' := keywords' + [(pairs[i].0.name, pairs[i].1)];
            i := i + 1;
          }
          assert pairs[..|pairs|] == pairs;
        } else if key.n == KWARGS_SINGLE {
          positionals' := positionals + [value];
        }
      } else if key.Text? {
        if HasName(keywords, key.name) {
          return false, [], [];
        }
        keywords' := keywords + [(key.name, value)];
      }
      ok := true;
    }

    /** Unset whatever lies from `base` up, and make that p slots. */
    method ClearSlots(base: nat, p: nat)
      requires base <= |stack|
      modifies this
      ensures stack == old(stack)[..base] + Unset(p)
    {
      ghost var under := stack[..base];
      var argCount: nat, i := |stack| - base, 0;
      while i < argCount
        invariant i <= argCount == |stack| - base && stack == under + Unset(i) + old(stack)[base + i..]
      {
        stack := stack[base + i := Kw(0)];
        i := i + 1;
      }
      assert stack == under + Unset(argCount);
      while argCount < p
        invariant stack == under + Unset(argCount)
      {
        stack := stack + [Kw(0)];
        argCount := argCount + 1;
      }
      while argCount > p
        invariant argCount >= p && stack == under + Unset(argCount)
      {
        stack := stack[..|stack| - 1];
        argCount := argCount - 1;
      }
    }

    /** Clear the arguments off the stack from `base`, leaving one unset slot for every named positional, then put the
        positionals, the collector and unset keyword-only slots there. */
    method Prepare(base: nat, sig: Signature, positionals: seq<Value<V>>)
      requires base <= |stack| && (|positionals| <= |sig.positional| || sig.collectsArgs)
      modifies this
      ensures stack == old(stack)[..base] + Region(sig, positionals, [])
    {
      ghost var under := stack[..base];
      var p := |sig.positional|;
      ClearSlots(base, p);
      var i := 0;
      while i < p && i < |positionals|
        invariant i <= p && i <= |positionals| && stack == under + positionals[..i] + Unset(p - i)
      {
        stack := stack[base + i := positionals[i]];
        i := i + 1;
      }
      ghost var placed := stack;
      if sig.collectsArgs {
        stack := stack + [ListOf(Beyond(positionals, p))];
      }
      ghost var collected := stack;
      i := 0;
      while i < |sig.keyword|
        invariant i <= |sig.keyword| && stack == collected + Unset(i)
      {
        stack := stack + [Kw(0)];
        i := i + 1;
      }
      assert stack[..base] == under && |stack| == base + sig.Offset() + |sig.keyword|;
      forall k | 0 <= k < sig.Offset() + |sig.keyword|
        ensures stack[base + k] == SlotValue(sig, positionals, [], k)
      {
        assert k < p ==> stack[base + k] == placed[base + k];
        assert k < sig.Offset() ==> stack[base + k] == collected[base + k];
      }
      assert stack[base..] == Region<V>(sig, positionals, []);
      assert stack == stack[..base] + stack[base..];
    }

    /** Try a keyword's slot. `taken` says something was there. */
    method PlaceKeyword(base: nat, sig: Signature, name: Name, value: Value<V>) returns (found: bool, taken: bool)
      requires base + sig.Offset() + |sig.keyword| <= |stack|
      modifies this
      ensures found == SlotOf(sig, name).Some?
      ensures taken == (found && !old(stack)[base + SlotOf(sig, name).value].Kw?)
      ensures stack == if found && !taken then old(stack)[base + SlotOf(sig, name).value := value] else old(stack)
    {
      var j := 0;
      while j < |sig.positional|
        invariant j <= |sig.positional| && stack == old(stack) && forall k | 0 <= k < j :: sig.positional[k] != Some(name)
      {
        if sig.positional[j] == Some(name) {
          assert SlotOf(sig, name) == Some(j);
          if !stack[base + j].Kw? {
            return true, true;
          }
          stack := stack[base + j := value];
          return true, false;
        }
        j := j + 1;
      }
      j := 0;
      while j < |sig.keyword|
        invariant j <= |sig.keyword| && stack == old(stack) && forall k | 0 <= k < j :: sig.keyword[k] != name
      {
        if sig.keyword[j] == name {
          assert SlotOf(sig, name) == Some(sig.Offset() + j);
          if !stack[base + j + sig.Offset()].Kw? {
            return true, true;
          }
          stack := stack[base + j + sig.Offset() := value];
          return true, false;
        }
        j := j + 1;
      }
      return false, false;
    }

    /** Place every keyword; what has no slot is left over, if the function collects that. */
    method PlaceKeywords(base: nat, sig: Signature, ghost positionals: seq<Value<V>>, count: nat, keywords: Keywords<V>)
      returns (ok: bool, leftover: Keywords<V>)
      requires base <= |stack| && stack[base..] == Region(sig, positionals, []) && count == |positionals|
      requires DistinctNames(keywords) && Clean(positionals, keywords)
      modifies this
      ensures |stack| >= base && stack[..base] == old(stack)[..base]
      ensures ok <==> forall k | 0 <= k < |keywords| :: !Clash(sig, count, keywords[k].0)
      ensures ok ==> stack == old(stack)[..base] + Region(sig, positionals, keywords) && leftover == Leftover(sig, keywords)
    {
      hide Clean, SlotValue, SlotOf, Region, DistinctNames;
      ghost var under := stack[..base];
      leftover := [];
      var k := 0;
      assert keywords[..0] == [] && stack == under + stack[base..];
      while k < |keywords|
        invariant k <= |keywords| && stack == under + Region(sig, positionals, keywords[..k])
        invariant leftover == Leftover(sig, keywords[..k])
        invariant forall i | 0 <= i < k :: !Clash(sig, count, keywords[i].0)
      {
        ghost var region := Region(sig, positionals, keywords[..k]);
        var name, value := keywords[k].0, keywords[k].1;
        assert keywords[..k + 1][..k] == keywords[..k];
        if SlotOf(sig, name).Some? {
          ClashTaken(sig, positionals, keywords, k);
          assert stack[base + SlotOf(sig, name).value] == region[SlotOf(sig, name).value];
        }
        var found, taken := PlaceKeyword(base, sig, name, value);
        if taken || (!found && !sig.collectsKws) {
          assert Clash(sig, count, keywords[k].0);
          assert stack[..base] == under;
          return false, [];
        }
        RegionNext(sig, positionals, keywords, k);
        if found {
          assert (under + region)[base + SlotOf(sig, name).value := value] == under + region[SlotOf(sig, name).value := value];
        } else {
          leftover := leftover + [keywords[k]];
        }
        k := k + 1;
      }
      assert keywords[..k] == keywords;
      assert stack[..base] == under;
      ok := true;
    }

    /** _callManaged, as far as the frame: the arguments on the stack become the function's slots, or it raises. */
    method CallManaged(sig: Signature, argCount: nat) returns (ok: bool)
      requires argCount <= |stack| && sig.required <= |sig.positional|
      requires argCount > 0 && stack[|stack| - 1].Kw? ==> Special(stack[|stack| - argCount..])
      requires CleanCall(stack[|stack| - argCount..], unpack)
      modifies this
      ensures ok <==> BindCall(sig, old(stack[|stack| - argCount..]), unpack).Frame?
      ensures |stack| >= |old(stack)| - argCount && stack[..|old(stack)| - argCount] == old(stack)[..|old(stack)| - argCount]
      ensures ok ==> stack == old(stack)[..|old(stack)| - argCount] + BindCall(sig, old(stack[|stack| - argCount..]), unpack).slots
    {
      hide Bind, BindPlain, Clean, AddExtras;
      var base := |stack| - argCount;
      ghost var args := stack[base..];
      if argCount > 0 && stack[|stack| - 1].Kw? {
        var m := stack[|stack| - 1].n;
        var n := argCount - 1 - 2 * m;
        assert args[|args| - 1] == stack[|stack| - 1];
        assert args[..n] == stack[base..base + n] && args[n..|args| - 1] == stack[base + n..base + n + 2 * m];
        var fine, positionals, keywords := ProcessComplexArguments(base, n, m);
        if !fine {
          return false;
        }
        ok := CallComplex(base, sig, positionals, keywords);
      } else {
        ok := CallPlain(base, sig);
      }
    }

    method CallComplex(base: nat, sig: Signature, positionals: seq<Value<V>>, keywords: Keywords<V>) returns (ok: bool)
      requires base <= |stack| && sig.required <= |sig.positional| && DistinctNames(keywords) && Clean(positionals, keywords)
      modifies this
      ensures |stack| >= base && stack[..base] == old(stack)[..base]
      ensures ok <==> Bind(sig, positionals, keywords).Frame?
      ensures ok ==> stack == old(stack)[..base] + Bind(sig, positionals, keywords).slots
    {
      hide Clean, SlotValue, Region, DistinctNames, Clash, KeywordFor;
      if |positionals| > |sig.positional| && !sig.collectsArgs {
        return false;
      }
      ghost var under := stack[..base];
      Prepare(base, sig, positionals);
      assert stack[base..] == Region<V>(sig, positionals, []) && stack[..base] == under;
      var leftover;
      ok, leftover := PlaceKeywords(base, sig, positionals, |positionals|, keywords);
      if !ok {
        return;
      }
      ghost var region := Region(sig, positionals, keywords);
      if sig.collectsKws {
        stack := stack + [DictOf(AsPairs(leftover))];
      }
      ghost var slots := stack[base..];
      Whole(sig, positionals, keywords, region, slots);
      assert stack[..base] == under && stack == under + slots;
      var i := 0;
      while i < sig.required
        invariant i <= sig.required && stack == under + slots
        invariant forall k | 0 <= k < i && k >= |positionals| :: !KeywordFor(sig, keywords, k).Kw?
      {
        RequiredSlot(sig, positionals, keywords, i);
        assert stack[base + i] == slots[i];
        if stack[base + i].Kw? {
          return false;
        }
        i := i + 1;
      }
    }

    /** The arguments over p become one list. */
    method CollectRest(base: nat, p: nat)
      requires base + p < |stack|
      modifies this
      ensures stack == old(stack)[..base] + (old(stack)[base..][..p] + [ListOf(old(stack)[base..][p..])])
    {
      var rest := stack[base + p..];
      assert rest == old(stack)[base..][p..];
      stack := stack[base + p := ListOf(rest)];
      ghost var full := stack;
      while |stack| > base + p + 1
        invariant base + p + 1 <= |stack| <= |full| && stack == full[..|stack|]
      {
        stack := stack[..|stack| - 1];
      }
    }

    method CallPlain(base: nat, sig: Signature) returns (ok: bool)
      requires base <= |stack| && sig.required <= |sig.positional|
      modifies this
      ensures |stack| >= base && stack[..base] == old(stack)[..base]
      ensures ok <==> BindPlain(sig, old(stack)[base..]).Frame?
      ensures ok ==> stack == old(stack)[..base] + BindPlain(sig, old(stack)[base..]).slots
    {
      ghost var under, args := stack[..base], stack[base..];
      var argCount, p: nat := |stack| - base, |sig.positional|;
      var counted := argCount;
      if argCount > p && sig.collectsArgs {
        CollectRest(base, p);
        argCount, counted := p + 1, p;
      } else {
        assert stack == under + args;
      }
      if counted < sig.required || counted > p {
        assert stack[..base] == under;
        return false;
      }
      ghost var bound := stack;
      ghost var start := argCount;
      while argCount < sig.Total()
        invariant start <= argCount <= sig.Total() && stack == bound + Unset(argCount - start)
      {
        stack := stack + [Kw(0)];
        argCount := argCount + 1;
      }
      assert stack[..base] == under;
      ok := true;
    }
  }

  lemma ExtrasNext<V>(g: Gathered<V>, all: seq<Value<V>>, i: nat, unpack: Unpack<V>)
    requires 2 * i + 2 <= |all|
    ensures AddExtras(g, all[..2 * (i + 1)], unpack) == AddExtra(AddExtras(g, all[..2 * i], unpack), all[2 * i], all[2 * i + 1], unpack)
  {
    assert all[..2 * (i + 1)][..2 * i] == all[..2 * i];
  }

  lemma {:induction false} RefusedStays<V>(g: Gathered<V>, all: seq<Value<V>>, i: nat, m: nat, unpack: Unpack<V>)
    requires i <= m && 2 * m <= |all| && AddExtras(g, all[..2 * i], unpack).Refused?
    ensures AddExtras(g, all[..2 * m], unpack).Refused?
    decreases m - i
  {
    if i < m {
      ExtrasNext(g, all, i, unpack);
      RefusedStays(g, all, i + 1, m, unpack);
    }
  }

  lemma DictNext<V>(g: Gathered<V>, pairs: seq<(Value<V>, Value<V>)>, i: nat)
    requires i < |pairs|
    ensures AddDict(g, pairs[..i + 1])
         == if pairs[i].0.Text? then AddKeyword(AddDict(g, pairs[..i]), pairs[i].0.name, pairs[i].1) else Refused
  {
    assert pairs[..i + 1][..i] == pairs[..i];
  }

  lemma {:induction false} DictRefused<V>(g: Gathered<V>, pairs: seq<(Value<V>, Value<V>)>, i: nat)
    requires i <= |pairs| && AddDict(g, pairs[..i]).Refused?
    ensures AddDict(g, pairs).Refused?
    decreases |pairs| - i
  {
    if i < |pairs| {
      DictNext(g, pairs, i);
      DictRefused(g, pairs, i + 1);
    } else {
      assert pairs[..i] == pairs;
    }
  }

  /** The last collector completes a frame. */
  lemma Whole<V>(sig: Signature, positionals: seq<Value<V>>, kws: Keywords<V>, region: seq<Value<V>>, slots: seq<Value<V>>)
    requires region == Region(sig, positionals, kws)
    requires slots == region + if sig.collectsKws then [DictOf(AsPairs(Leftover(sig, kws)))] else []
    ensures slots == seq(sig.Total(), i requires 0 <= i < sig.Total() => SlotValue(sig, positionals, kws, i))
  {
  }

  lemma RequiredSlot<V>(sig: Signature, positionals: seq<Value<V>>, kws: Keywords<V>, i: nat)
    requires i < |sig.positional| && Clean(positionals, kws)
    ensures SlotValue(sig, positionals, kws, i).Kw? <==> i >= |positionals| && KeywordFor(sig, kws, i).Kw?
  {
  }

  // ----- what binding promises -----

  lemma {:induction false} KeywordForUnique<V>(sig: Signature, kws: Keywords<V>, k: nat)
    requires k < |kws| && DistinctNames(kws) && SlotOf(sig, kws[k].0).Some?
    ensures KeywordFor(sig, kws, SlotOf(sig, kws[k].0).value) == kws[k].1
    decreases |kws|
  {
    var n := |kws| - 1;
    if k < n {
      if SlotOf(sig, kws[n].0) == SlotOf(sig, kws[k].0) {
        SlotName<V>(sig, kws[n].0, kws[k].0);
        assert false;
      }
      KeywordForUnique(sig, kws[..n], k);
    }
  }

  /** In a frame, each keyword is in its slot, or left over. */
  lemma KeywordLands<V>(sig: Signature, positionals: seq<Value<V>>, kws: Keywords<V>, k: nat)
    requires Bind(sig, positionals, kws).Frame? && k < |kws| && DistinctNames(kws)
    ensures match SlotOf(sig, kws[k].0)
            case Some(i) => i < sig.Total() && Bind(sig, positionals, kws).slots[i] == kws[k].1
            case None => sig.collectsKws && kws[k] in Leftover(sig, kws)
  {
    assert !Clash(sig, |positionals|, kws[k].0);
    if SlotOf(sig, kws[k].0).Some? {
      KeywordForUnique(sig, kws, k);
    } else {
      LeftoverHolds(sig, kws, k);
    }
  }

  lemma {:induction false} LeftoverHolds<V>(sig: Signature, kws: Keywords<V>, k: nat)
    requires k < |kws| && SlotOf(sig, kws[k].0).None?
    ensures kws[k] in Leftover(sig, kws)
    decreases |kws|
  {
    var n := |kws| - 1;
    if k < n {
      LeftoverHolds(sig, kws[..n], k);
    }
  }

  ghost function ValuesOf<V>(kws: Keywords<V>): multiset<Value<V>> {
    if kws == [] then multiset{} else ValuesOf(kws[..|kws| - 1]) + multiset{kws[|kws| - 1].1}
  }

  /** What some slots hold, unset ones aside. */
  ghost function Held<V>(slots: seq<Value<V>>): multiset<Value<V>> {
    multiset(slots)[Kw(0) := 0]
  }

  /** Nothing supplied is lost and nothing is invented: slots and leftovers hold what came in, each value once. */
  lemma {:induction false} NothingLost<V>(sig: Signature, positionals: seq<Value<V>>, kws: Keywords<V>)
    requires DistinctNames(kws) && Clean(positionals, kws)
    requires forall k | 0 <= k < |kws| :: !Clash(sig, |positionals|, kws[k].0)
    ensures Held(Region(sig, positionals, kws)) + ValuesOf(Leftover(sig, kws))
         == Held(Region<V>(sig, positionals, [])) + ValuesOf(kws)
    decreases |kws|
  {
    hide Region, Held, Clash, DistinctNames, SlotOf;
    if kws != [] {
      var n := |kws| - 1;
      DistinctFewer(sig, positionals, kws);
      NothingLost(sig, positionals, kws[..n]);
      RegionNext(sig, positionals, kws, n);
      assert kws[..n + 1] == kws;
      var a, b := Region(sig, positionals, kws[..n]), Region(sig, positionals, kws);
      match SlotOf(sig, kws[n].0)
      case None =>
        var over := Leftover(sig, kws);
        assert over == Leftover(sig, kws[..n]) + [kws[n]];
        assert over[..|over| - 1] == Leftover(sig, kws[..n]) && over[|over| - 1] == kws[n];
        assert ValuesOf(over) == ValuesOf(Leftover(sig, kws[..n])) + multiset{kws[n].1};
        assert ValuesOf(kws) == ValuesOf(kws[..n]) + multiset{kws[n].1};
        assert b == a;
        Regrouped(Held(a), ValuesOf(Leftover(sig, kws[..n])), Held(Region<V>(sig, positionals, [])), ValuesOf(kws[..n]), kws[n].1);
      case Some(i) =>
        HeldUpdate(a, i, kws[n].1);
        assert Leftover(sig, kws) == Leftover(sig, kws[..n]);
        Regrouped(Held(a), ValuesOf(Leftover(sig, kws[..n])), Held(Region<V>(sig, positionals, [])), ValuesOf(kws[..n]), kws[n].1);
    }
  }

  lemma Regrouped<T>(a: multiset<T>, b: multiset<T>, c: multiset<T>, d: multiset<T>, v: T)
    requires a + b == c + d
    ensures a + (b + multiset{v}) == c + (d + multiset{v}) == a + multiset{v} + b
  {
    var w := multiset{v};
    assert a + (b + w) == (a + b) + w;
    assert a + w + b == (a + b) + w;
    assert c + (d + w) == (c + d) + w;
  }

  lemma DistinctFewer<V>(sig: Signature, positionals: seq<Value<V>>, kws: Keywords<V>)
    requires kws != [] && DistinctNames(kws) && Clean(positionals, kws)
    ensures DistinctNames(kws[..|kws| - 1]) && Clean(positionals, kws[..|kws| - 1]) && !kws[|kws| - 1].1.Kw?
  {
  }

  lemma HeldUpdate<V>(slots: seq<Value<V>>, i: nat, v: Value<V>)
    requires i < |slots| && slots[i] == Kw(0) && !v.Kw?
    ensures Held(slots[i := v]) == Held(slots) + multiset{v}
  {
    assert slots == slots[..i] + [slots[i]] + slots[i + 1..];
    assert slots[i := v] == slots[..i] + [v] + slots[i + 1..];
    assert multiset(slots[i := v]) == multiset(slots) - multiset{Kw(0)} + multiset{v};
  }

  /** Before any keyword, the slots hold the positionals, those over in the list. */
  lemma PositionalsHeld<V>(sig: Signature, positionals: seq<Value<V>>)
    requires Clean<V>(positionals, []) && (|positionals| <= |sig.positional| || sig.collectsArgs)
    ensures var n := if |positionals| < |sig.positional| then |positionals| else |sig.positional|;
      Held(Region<V>(sig, positionals, []))
      == multiset(positionals[..n]) + if sig.collectsArgs then multiset{ListOf(positionals[n..])} else multiset{}
  {
    var p := |sig.positional|;
    var n := if |positionals| < p then |positionals| else p;
    var list := if sig.collectsArgs then [ListOf(positionals[n..])] else [];
    var region := Region<V>(sig, positionals, []);
    RegionParts(sig, positionals, n);
    hide Region, Unset;
    UnsetHeld<V>(p - n);
    UnsetHeld<V>(|sig.keyword|);
    assert multiset(region) == multiset(positionals[..n]) + multiset(Unset<V>(p - n)) + multiset(list) + multiset(Unset<V>(|sig.keyword|));
    forall v | v in positionals[..n] ensures !v.Kw? {
      var i :| 0 <= i < n && positionals[i] == v;
    }
    assert Kw(0) !in positionals[..n];
  }

  lemma RegionParts<V>(sig: Signature, positionals: seq<Value<V>>, n: nat)
    requires n == if |positionals| < |sig.positional| then |positionals| else |sig.positional|
    ensures Region<V>(sig, positionals, [])
         == positionals[..n] + Unset(|sig.positional| - n) + (if sig.collectsArgs then [ListOf(positionals[n..])] else [])
            + Unset(|sig.keyword|)
  {
    var p := |sig.positional|;
    assert Beyond(positionals, p) == positionals[n..];
    var list := if sig.collectsArgs then [ListOf(positionals[n..])] else [];
    var region, parts := Region<V>(sig, positionals, []), positionals[..n] + Unset(p - n) + list + Unset(|sig.keyword|);
    forall i | 0 <= i < |region| ensures region[i] == parts[i] {
      assert i < p ==> parts[i] == if i < n then positionals[i] else Kw(0);
      assert i >= sig.Offset() ==> parts[i] == Kw(0);
    }
  }

  lemma {:induction false} UnsetHeld<V>(n: nat)
    ensures multiset(Unset<V>(n)) == multiset{}[Kw(0) := n]
    decreases n
  {
    if n > 0 {
      UnsetHeld<V>(n - 1);
      assert Unset<V>(n) == Unset<V>(n - 1) + [Kw(0)];
    }
  }

  /** On positionals alone the two paths agree, but for collectors that the plain one leaves unset. */
  lemma PathsAgree<V>(sig: Signature, args: seq<Value<V>>)
    requires sig.required <= |sig.positional| && Clean<V>(args, [])
    ensures Bind<V>(sig, args, []).Frame? <==> BindPlain(sig, args).Frame?
    ensures Bind<V>(sig, args, []).Frame? ==>
      var a, b := Bind<V>(sig, args, []).slots, BindPlain(sig, args).slots;
      && |a| == |b| == sig.Total()
      && forall i | 0 <= i < |a| ::
           if i == |sig.positional| && sig.collectsArgs && |args| <= |sig.positional| then a[i] == ListOf([]) && b[i] == Kw(0)
           else if i == sig.Total() - 1 && sig.collectsKws then a[i] == DictOf([]) && b[i] == Kw(0)
           else a[i] == b[i]
  {
    assert forall i | 0 <= i < sig.required && i >= |args| :: KeywordFor<V>(sig, [], i).Kw?;
    assert AsPairs<V>(Leftover<V>(sig, [])) == [];
    if |args| < sig.required {
      assert KeywordFor<V>(sig, [], |args|).Kw?;
    }
  }
}
