/** The commands whose arguments determine their value are exactly the unambiguous ones. */
module ArgvAmbiguity {
  import opened Common
  import opened Argv
  import opened ArgvGrammar
  import opened ArgvRoundTrip

  // ---------- A text that is no flag, no name and free of delimiters ----------

  function Copies<T>(x: T, n: nat): seq<T> {
    seq(n, _ => x)
  }

  function TotalLength(variants: seq<Variant>): nat {
    if variants == [] then 0 else |variants[0].name| + TotalLength(variants[1..])
  }

  lemma {:induction false} NameLength(variants: seq<Variant>, i: nat)
    requires i < |variants|
    ensures |variants[i].name| <= TotalLength(variants)
  {
    if i > 0 {
      NameLength(variants[1..], i - 1);
    }
  }

  /** A text that any bare field can hold. */
  ghost predicate Plain(all: set<string>, names: set<string>, t: string) {
    !Stop(all, t) && t !in names
  }

  lemma {:induction false} PlainCopies(all: set<string>, tail: Tail, c: char, n: nat)
    requires (forall flag :: flag in all ==> FlagFine(flag)) && c != '-' && c != '='
    requires tail.Commands? && tail.plan.Choice? ==> n == TotalLength(tail.plan.variants)
    ensures Plain(all, Names(tail), Copies(c, n + 1))
  {
    var t := Copies(c, n + 1);
    BeforeEqualsPlain(t);
    assert t[0] == c;
    if t in Names(tail) {
      var i :| 0 <= i < |tail.plan.variants| && tail.plan.variants[i].name == t;
      NameLength(tail.plan.variants, i);
    }
  }

  lemma {:induction false} PlainText(all: set<string>, tail: Tail, d1: Option<char>,
                                     d2: Option<char>) returns (t: string)
    requires forall flag :: flag in all ==> FlagFine(flag)
    ensures Plain(all, Names(tail), t)
    ensures (d1.Some? ==> d1.value !in t) && (d2.Some? ==> d2.value !in t)
  {
    var c := if d1 != Some('a') && d2 != Some('a') then 'a'
             else if d1 != Some('b') && d2 != Some('b') then 'b' else 'c';
    var n := if tail.Commands? && tail.plan.Choice? then TotalLength(tail.plan.variants) else 0;
    t := Copies(c, n + 1);
    PlainCopies(all, tail, c, n);
  }

  // ---------- Values that emit as little as they can ----------

  function Least(e: Emitter, t: string): (v: Value)
    ensures LeafTyped(e, v)
  {
    match e
    case Nothing => Skipped
    case FlagIf(_, when) => Truth(!when)
    case FlagTimes(_) => Times(0)
    case One(optional, _, _) => if optional then MaybeText(None) else Text(t)
    case Many(optional, _, _, _) => if optional then MaybeTexts(None) else Texts([])
  }

  /** The value of an open field that is one text. */
  function Holding(e: Emitter, t: string): (v: Value)
    requires Open(e)
    ensures LeafTyped(e, v)
  {
    if e.One? then MaybeText(Some(t)) else if e.optional then MaybeTexts(Some([t])) else Texts([t])
  }

  function LeastAll(es: seq<Emitter>, t: string): (vs: seq<Value>)
    ensures LeavesTyped(es, vs)
  {
    seq(|es|, i requires 0 <= i < |es| => Least(es[i], t))
  }

  lemma {:induction false} LeastEmits(e: Emitter, t: string)
    requires !Separates(e) && !Fence(e)
    ensures EmitLeaf(e, Least(e, t)) == if Fixed(e) then [t] else []
  {
  }

  lemma {:induction false} HoldingEmits(e: Emitter, t: string)
    requires Open(e)
    ensures EmitLeaf(e, Holding(e, t)) == [t] && TextsOf(e, Holding(e, t)) == [t]
    ensures LeafBack(e, Holding(e, t)) != LeafBack(e, Least(e, t))
  {
    EmitTexts(e, Holding(e, t));
    PushEachBare(e.push, [t]);
  }

  /** Between two flags that are always there, least values are only the fixed ones. */
  lemma {:induction false} LeastRun(es: seq<Emitter>, t: string)
    requires forall i :: 0 <= i < |es| ==> !Separates(es[i]) && !Fence(es[i])
    ensures EmitLeaves(es, LeastAll(es, t)) == Copies(t, FixedCount(es))
  {
    if es != [] {
      LeastRun(es[1..], t);
      LeastEmits(es[0], t);
      assert LeastAll(es, t)[1..] == LeastAll(es[1..], t);
    }
  }

  lemma {:induction false} LeastIsSafe(all: set<string>, names: set<string>, e: Emitter, t: string)
    requires Plain(all, names, t)
    ensures LeafSafe(all, names, e, Least(e, t))
  {
  }

  lemma {:induction false} HoldingIsSafe(all: set<string>, names: set<string>, e: Emitter, t: string)
    requires Open(e) && Plain(all, names, t) && (e.Many? && e.delimiter.Some? ==> e.delimiter.value !in t)
    ensures LeafSafe(all, names, e, Holding(e, t))
  {
    HoldingEmits(e, t);
  }

  lemma {:induction false} FewerNames(all: set<string>, names: set<string>, fewer: set<string>, e: Emitter, v: Value)
    requires LeafTyped(e, v) && LeafSafe(all, names, e, v) && fewer <= names
    ensures LeafSafe(all, fewer, e, v)
  {
  }

  lemma {:induction false} AllSafe(all: set<string>, names: set<string>, es: seq<Emitter>, vs: seq<Value>)
    requires LeavesTyped(es, vs) && forall i :: 0 <= i < |es| ==> LeafSafe(all, names, es[i], vs[i])
    ensures BodySafe(all, names, es, vs)
    decreases |es|
  {
    var k := FenceAt(es);
    forall i | 0 <= i < k ensures LeafSafe(all, GroupNames(names, es), es[i], vs[i]) {
      FewerNames(all, names, GroupNames(names, es), es[i], vs[i]);
    }
    if k < |es| {
      AllSafe(all, names, es[k + 1..], vs[k + 1..]);
    }
  }

  // ---------- Two open fields ----------

  lemma {:induction false} OpenIn(es: seq<Emitter>) returns (i: nat)
    requires OpenCount(es) >= 1
    ensures i < |es| && Open(es[i]) && (OpenCount(es) >= 2 ==> OpenCount(es[i + 1..]) >= 1)
  {
    if Open(es[0]) {
      i := 0;
    } else {
      var k := OpenIn(es[1..]);
      i := k + 1;
      assert es[1..][k + 1..] == es[i + 1..];
    }
  }

  lemma {:induction false} TwoOpen(es: seq<Emitter>) returns (i: nat, j: nat)
    requires !OneOpenEach(es)
    ensures i < j < |es| && Open(es[i]) && Open(es[j]) && forall m :: i <= m <= j ==> !Fence(es[m])
    decreases |es|
  {
    var k := FenceAt(es);
    if OpenCount(es[..k]) >= 2 {
      i := OpenIn(es[..k]);
      var more := OpenIn(es[..k][i + 1..]);
      j := i + 1 + more;
    } else {
      var a, b := TwoOpen(es[k + 1..]);
      i, j := k + 1 + a, k + 1 + b;
      forall m | i <= m <= j ensures !Fence(es[m]) {
        assert es[m] == es[k + 1..][m - k - 1];
      }
    }
  }

  /** Fields around two of them, all but these with least values. */
  function Around(a: seq<Emitter>, x: Value, m: seq<Emitter>, y: Value, b: seq<Emitter>, t: string): seq<Value> {
    LeastAll(a, t) + ([x] + (LeastAll(m, t) + ([y] + LeastAll(b, t))))
  }

  lemma {:induction false} EmitAround(a: seq<Emitter>, p: Emitter, x: Value, m: seq<Emitter>, q: Emitter, y: Value,
                                      b: seq<Emitter>, t: string)
    requires LeafTyped(p, x) && LeafTyped(q, y)
    ensures LeavesTyped(a + ([p] + (m + ([q] + b))), Around(a, x, m, y, b, t))
    ensures EmitLeaves(a + ([p] + (m + ([q] + b))), Around(a, x, m, y, b, t))
         == EmitLeaves(a, LeastAll(a, t)) + (EmitLeaf(p, x) + (EmitLeaves(m, LeastAll(m, t))
              + (EmitLeaf(q, y) + EmitLeaves(b, LeastAll(b, t)))))
  {
    var vb := [y] + LeastAll(b, t);
    var vm := [x] + (LeastAll(m, t) + vb);
    EmitOne(p, x);
    EmitOne(q, y);
    EmitAppend([q], [y], b, LeastAll(b, t));
    EmitAppend(m, LeastAll(m, t), [q] + b, vb);
    EmitAppend([p], [x], m + ([q] + b), LeastAll(m, t) + vb);
    EmitAppend(a, LeastAll(a, t), [p] + (m + ([q] + b)), vm);
  }

  /** Moving a text over some equal ones. */
  lemma {:induction false} Shift(a: seq<string>, t: string, n: nat, b: seq<string>)
    ensures a + ([t] + (Copies(t, n) + ([] + b))) == a + ([] + (Copies(t, n) + ([t] + b)))
  {
    assert [t] + Copies(t, n) == Copies(t, n) + [t];
    assert [t] + (Copies(t, n) + ([] + b)) == ([t] + Copies(t, n)) + b;
    assert [] + (Copies(t, n) + ([t] + b)) == (Copies(t, n) + [t]) + b;
  }

  /** A text given to one of two open fields of a group, or to the other, is the same arguments. */
  lemma {:induction false} AroundClash(a: seq<Emitter>, p: Emitter, m: seq<Emitter>, q: Emitter, b: seq<Emitter>,
                                       t: string)
    requires Open(p) && Open(q) && forall i :: 0 <= i < |m| ==> !Separates(m[i]) && !Fence(m[i])
    ensures var es := a + ([p] + (m + ([q] + b)));
      var vs, ws := Around(a, Holding(p, t), m, Least(q, t), b, t), Around(a, Least(p, t), m, Holding(q, t), b, t);
      LeavesTyped(es, vs) && LeavesTyped(es, ws) && EmitLeaves(es, vs) == EmitLeaves(es, ws)
  {
    EmitAround(a, p, Holding(p, t), m, q, Least(q, t), b, t);
    EmitAround(a, p, Least(p, t), m, q, Holding(q, t), b, t);
    HoldingEmits(p, t);
    HoldingEmits(q, t);
    LeastEmits(p, t);
    LeastEmits(q, t);
    LeastRun(m, t);
    Shift(EmitLeaves(a, LeastAll(a, t)), t, FixedCount(m), EmitLeaves(b, LeastAll(b, t)));
  }

  lemma {:induction false} Cut<T>(s: seq<T>, i: nat, j: nat)
    requires i < j < |s|
    ensures s == s[..i] + ([s[i]] + (s[i + 1..j] + ([s[j]] + s[j + 1..])))
  {
  }

  lemma {:induction false} LeastCut(es: seq<Emitter>, t: string, i: nat, j: nat, x: Value, y: Value)
    requires i < j < |es|
    ensures LeastAll(es, t)[i := x][j := y] == Around(es[..i], x, es[i + 1..j], y, es[j + 1..], t)
  {
    var vs, ws := LeastAll(es, t)[i := x][j := y], Around(es[..i], x, es[i + 1..j], y, es[j + 1..], t);
    assert |vs| == |ws|;
    forall n | 0 <= n < |vs| ensures vs[n] == ws[n] {
    }
  }

  lemma {:induction false} BodyClash(es: seq<Emitter>, t: string, i: nat, j: nat)
    requires i < j < |es| && Open(es[i]) && Open(es[j])
    requires forall m :: 0 <= m < |es| ==> !Separates(es[m])
    requires forall m :: i <= m <= j ==> !Fence(es[m])
    ensures var vs := LeastAll(es, t);
      EmitLeaves(es, vs[i := Holding(es[i], t)]) == EmitLeaves(es, vs[j := Holding(es[j], t)])
  {
    var vs := LeastAll(es, t);
    AroundClash(es[..i], es[i], es[i + 1..j], es[j], es[j + 1..], t);
    Cut(es, i, j);
    LeastCut(es, t, i, j, Holding(es[i], t), Least(es[j], t));
    LeastCut(es, t, i, j, Least(es[i], t), Holding(es[j], t));
    assert vs[i := Holding(es[i], t)][j := Least(es[j], t)] == vs[i := Holding(es[i], t)];
    assert vs[i := Least(es[i], t)][j := Holding(es[j], t)] == vs[j := Holding(es[j], t)];
  }

  // ---------- Values of whole commands ----------

  lemma {:induction false} RebuildFlat(items: seq<Item>, ps: seq<Value>)
    requires |ps| == |FlatItems(items)|
    ensures FlatValues(items, RebuildAll(items, ps)) == ps
    decreases items, 0
  {
    if items != [] {
      var n := |FlatItem(items[0])|;
      RebuildItemFlat(items[0], ps[..n]);
      RebuildFlat(items[1..], ps[n..]);
      assert ps[..n] + ps[n..] == ps;
    }
  }

  lemma {:induction false} RebuildItemFlat(item: Item, ps: seq<Value>)
    requires |ps| == |FlatItem(item)|
    ensures FlatValue(item, Rebuild(item, ps)) == ps
    decreases item, 0
  {
    if Inlined(item) {
      RebuildFlat(item.plan.items, ps);
    }
  }

  lemma {:induction false} RebuildTyped(items: seq<Item>, ps: seq<Value>)
    requires PartsTyped(FlatItems(items), ps)
    ensures AllTyped(items, RebuildAll(items, ps))
    decreases items, 0
  {
    if items != [] {
      var first, more := FlatItem(items[0]), FlatItems(items[1..]);
      var n := |first|;
      assert forall i :: 0 <= i < n ==> FlatItems(items)[i] == first[i];
      assert forall i :: 0 <= i < |more| ==> FlatItems(items)[n + i] == more[i];
      RebuildItemTyped(items[0], ps[..n]);
      RebuildTyped(items[1..], ps[n..]);
    }
  }

  lemma {:induction false} RebuildItemTyped(item: Item, ps: seq<Value>)
    requires PartsTyped(FlatItem(item), ps)
    ensures ItemTyped(item, Rebuild(item, ps))
    decreases item, 0
  {
    if Inlined(item) {
      RebuildTyped(item.plan.items, ps);
    }
  }

  /** A value of the command's tail, which is none or one. */
  ghost predicate TailValue(items: seq<Item>, more: seq<Value>)
    requires Formed(Fields(items))
  {
    var parts, c := FlatItems(items), CommandOf(items);
    var n := BodyLength(parts);
    && |more| == |parts| - n
    && (n < |parts| ==> ItemTyped(parts[n], more[0]))
    && (c.tail.Trailing? ==> LeafSafe({}, {}, c.tail.emit, more[0]))
    && (c.tail.Commands? && !(c.tail.optional && more[0] == Absent) ==>
         Typed(c.tail.plan, more[0]) && Safe(c.tail.plan, more[0]))
  }

  lemma {:induction false} PartsOfCommand(items: seq<Item>, vs: seq<Value>, more: seq<Value>)
    requires Formed(Fields(items)) && LeavesTyped(CommandOf(items).body, vs) && TailValue(items, more)
    ensures PartsTyped(FlatItems(items), vs + more)
  {
    var parts, c := FlatItems(items), CommandOf(items);
    var n := BodyLength(parts);
    forall i | 0 <= i < |parts| ensures ItemTyped(parts[i], (vs + more)[i]) {
      if i < n {
        assert c.body[i] == parts[i].emit && LeafTyped(c.body[i], vs[i]);
      }
    }
  }

  /** A value of a command from the values of its body and its tail. */
  lemma {:induction false} Build(items: seq<Item>, vs: seq<Value>, more: seq<Value>) returns (v: Value)
    requires Formed(Fields(items)) && LeavesTyped(CommandOf(items).body, vs) && TailValue(items, more)
    requires var c := CommandOf(items); BodySafe(Flags(c.body), Names(c.tail), c.body, vs)
    ensures Typed(Fields(items), v) && Safe(Fields(items), v)
    ensures |v.fields| == |items| && FlatValues(items, v.fields) == vs + more
    ensures PartsTyped(FlatItems(items), vs + more)
    ensures ToArgv(Fields(items), v) == EmitLeaves(CommandOf(items).body, vs) + TailTokens(FlatItems(items), vs + more)
    ensures Back(Fields(items), v) == Record(RebuildAll(items, BackParts(FlatItems(items), vs + more)))
  {
    var parts, c := FlatItems(items), CommandOf(items);
    var ps := vs + more;
    PartsOfCommand(items, vs, more);
    v := Record(RebuildAll(items, ps));
    RebuildTyped(items, ps);
    RebuildFlat(items, ps);
    FlatEmits(items, v.fields);
    EmitCommand(parts, ps);
    RebuildBack(items, v.fields);
    assert ps[..|vs|] == vs;
  }

  lemma {:induction false} FlagsFine(items: seq<Item>)
    requires Formed(Fields(items))
    ensures forall flag :: flag in Flags(CommandOf(items).body) ==> FlagFine(flag)
  {
  }

  lemma {:induction false} SomeTail(items: seq<Item>) returns (more: seq<Value>)
    requires Formed(Fields(items))
    ensures TailValue(items, more)
    decreases 1 + DepthAll(items), 0
  {
    var parts, c := FlatItems(items), CommandOf(items);
    match c.tail
    case NoTail => more := [];
    case Trailing(e) => more := [Least(e, "")];
    case Commands(optional, plan) =>
      if optional {
        more := [Absent];
      } else {
        var v := SomeValue(plan);
        more := [v];
        assert ItemTyped(parts[BodyLength(parts)], v);
      }
  }

  /** Every well-formed type has a value that can be told apart. */
  lemma {:induction false} SomeValue(plan: Plan) returns (v: Value)
    requires Formed(plan)
    ensures Typed(plan, v) && Safe(plan, v)
    decreases Depth(plan), 1
  {
    match plan
    case Fields(items) =>
      var more := SomeTail(items);
      v := LeastCommand(items, more);
    case Choice(variants) =>
      if variants[0].UnitVariant? {
        v := Chosen(0, Skipped);
      } else {
        var payload := SomeValue(PayloadOf(plan, 0));
        v := Chosen(0, payload);
      }
  }

  lemma {:induction false} LeastCommand(items: seq<Item>, more: seq<Value>) returns (v: Value)
    requires Formed(Fields(items)) && TailValue(items, more)
    ensures Typed(Fields(items), v) && Safe(Fields(items), v)
  {
    var c := CommandOf(items);
    FlagsFine(items);
    var t := PlainText(Flags(c.body), c.tail, None, None);
    LeastBodySafe(Flags(c.body), Names(c.tail), c.body, t);
    v := Build(items, LeastAll(c.body, t), more);
  }

  lemma {:induction false} LeastBodySafe(all: set<string>, names: set<string>, es: seq<Emitter>, t: string)
    requires Plain(all, names, t)
    ensures BodySafe(all, names, es, LeastAll(es, t))
  {
    forall i | 0 <= i < |es| ensures LeafSafe(all, names, es[i], LeastAll(es, t)[i]) {
      LeastIsSafe(all, names, es[i], t);
    }
    AllSafe(all, names, es, LeastAll(es, t));
  }

  lemma {:induction false} HoldingBodySafe(all: set<string>, names: set<string>, es: seq<Emitter>, t: string, k: nat)
    requires Plain(all, names, t) && k < |es| && Open(es[k])
    requires es[k].Many? && es[k].delimiter.Some? ==> es[k].delimiter.value !in t
    ensures LeavesTyped(es, LeastAll(es, t)[k := Holding(es[k], t)])
    ensures BodySafe(all, names, es, LeastAll(es, t)[k := Holding(es[k], t)])
  {
    var vs := LeastAll(es, t)[k := Holding(es[k], t)];
    forall i | 0 <= i < |es| ensures LeafSafe(all, names, es[i], vs[i]) {
      if i == k {
        HoldingIsSafe(all, names, es[k], t);
      } else {
        LeastIsSafe(all, names, es[i], t);
      }
    }
    AllSafe(all, names, es, vs);
  }

  // ---------- Ambiguous commands ----------

  /** Two values that can be told apart themselves, but not by their arguments. */
  ghost predicate Clashing(plan: Plan, v: Value, w: Value)
    requires Formed(plan)
  {
    && Typed(plan, v) && Safe(plan, v) && Typed(plan, w) && Safe(plan, w)
    && ToArgv(plan, v) == ToArgv(plan, w) && Back(plan, v) != Back(plan, w)
  }

  /** Values that differ in one part come back different. */
  lemma {:induction false} BackDiffers(items: seq<Item>, ps: seq<Value>, qs: seq<Value>, i: nat)
    requires PartsTyped(FlatItems(items), ps) && PartsTyped(FlatItems(items), qs) && i < |ps|
    requires ItemBack(FlatItems(items)[i], ps[i]) != ItemBack(FlatItems(items)[i], qs[i])
    ensures RebuildAll(items, BackParts(FlatItems(items), ps)) != RebuildAll(items, BackParts(FlatItems(items), qs))
  {
    var parts := FlatItems(items);
    RebuildFlat(items, BackParts(parts, ps));
    RebuildFlat(items, BackParts(parts, qs));
    assert BackParts(parts, ps)[i] != BackParts(parts, qs)[i];
  }

  function DelimiterOf(e: Emitter): Option<char> {
    if e.Many? then e.delimiter else None
  }

  lemma {:induction false} GroupClash(items: seq<Item>) returns (v: Value, w: Value)
    requires Formed(Fields(items)) && !OneOpenEach(CommandOf(items).body)
    ensures Clashing(Fields(items), v, w)
  {
    var parts, c := FlatItems(items), CommandOf(items);
    var es := c.body;
    var i, j := TwoOpen(es);
    FlagsFine(items);
    var t := PlainText(Flags(es), c.tail, DelimiterOf(es[i]), DelimiterOf(es[j]));
    var more := SomeTail(items);
    var vs, ws := LeastAll(es, t)[i := Holding(es[i], t)], LeastAll(es, t)[j := Holding(es[j], t)];
    HoldingBodySafe(Flags(es), Names(c.tail), es, t, i);
    HoldingBodySafe(Flags(es), Names(c.tail), es, t, j);
    v := Build(items, vs, more);
    w := Build(items, ws, more);
    BodyOfCommand(items);
    BodyClash(es, t, i, j);
    HoldingEmits(es[i], t);
    assert parts[i].emit == es[i];
    BackDiffers(items, vs + more, ws + more, i);
  }

  lemma {:induction false} TailClash(items: seq<Item>, a: Value, b: Value) returns (v: Value, w: Value)
    requires Formed(Fields(items)) && CommandOf(items).tail.Commands? && Clashing(CommandOf(items).tail.plan, a, b)
    ensures Clashing(Fields(items), v, w)
  {
    var parts, c := FlatItems(items), CommandOf(items);
    var n := BodyLength(parts);
    FlagsFine(items);
    var t := PlainText(Flags(c.body), c.tail, None, None);
    var vs := LeastAll(c.body, t);
    LeastBodySafe(Flags(c.body), Names(c.tail), c.body, t);
    assert ItemTyped(parts[n], a) && ItemTyped(parts[n], b);
    v := Build(items, vs, [a]);
    w := Build(items, vs, [b]);
    TailCommand(items, vs + [a]);
    TailCommand(items, vs + [b]);
    assert a != Absent && b != Absent;
    BackDiffers(items, vs + [a], vs + [b], n);
  }

  lemma {:induction false} ChoiceClash(plan: Plan, tag: nat, a: Value, b: Value)
    requires Formed(plan) && plan.Choice? && tag < |plan.variants| && plan.variants[tag].PayloadVariant?
    requires Clashing(PayloadOf(plan, tag), a, b)
    ensures Clashing(plan, Chosen(tag, a), Chosen(tag, b))
  {
  }

  /** Every ambiguous type has two values with the same arguments. */
  lemma {:induction false} AmbiguousClashes(plan: Plan) returns (v: Value, w: Value)
    requires Formed(plan) && !Unambiguous(plan)
    ensures Clashing(plan, v, w)
    decreases Depth(plan)
  {
    match plan
    case Fields(items) =>
      if OneOpenEach(CommandOf(items).body) {
        var a, b := AmbiguousClashes(CommandOf(items).tail.plan);
        v, w := TailClash(items, a, b);
      } else {
        v, w := GroupClash(items);
      }
    case Choice(variants) =>
      var tag :| 0 <= tag < |variants| && variants[tag].PayloadVariant? && !Unambiguous(PayloadOf(plan, tag));
      var a, b := AmbiguousClashes(PayloadOf(plan, tag));
      ChoiceClash(plan, tag, a, b);
      v, w := Chosen(tag, a), Chosen(tag, b);
  }

  /** The arguments of a value determine it, but for what does not come back. */
  ghost predicate Injective(plan: Plan)
    requires Formed(plan)
  {
    forall v, w :: !Clashing(plan, v, w)
  }

  /**
   A well-formed type is read back from its arguments if and only if, in each of its commands,
   at most one bare field between two flags that are always there is of open length.
  */
  lemma {:induction false} InjectiveIffUnambiguous(plan: Plan)
    requires Formed(plan)
    ensures Injective(plan) <==> Unambiguous(plan)
  {
    if Unambiguous(plan) {
      forall v, w ensures !Clashing(plan, v, w) {
        if Clashing(plan, v, w) {
          RoundTrip(plan, v);
          RoundTrip(plan, w);
          assert false;
        }
      }
    } else {
      var v, w := AmbiguousClashes(plan);
    }
  }
}
