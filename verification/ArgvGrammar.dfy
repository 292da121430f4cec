/**
 The grammar of the argument vectors that the derive macro's code emits: which commands
 are well-formed, which are unambiguous, which values can be told apart, and a reader.

 A command is its fields with flattened structs inlined, then perhaps a separated field or
 a subcommand. Flags may be looked up wherever they stand. Bare values have only their
 places, so they are counted between two flags that are always there.
*/
module ArgvGrammar {
  import opened Common
  import opened Argv

  // ---------- Flattening ----------

  /** A nested struct is inlined; anything else stays one part. */
  predicate Inlined(item: Item) {
    item.Nested? && item.times.Once? && item.plan.Fields?
  }

  function Depth(plan: Plan): nat
    decreases plan, 1
  {
    match plan
    case Fields(items) => 1 + DepthAll(items)
    case Choice(variants) => 1 + DepthVariants(variants)
  }

  function Max(a: nat, b: nat): nat {
    if a < b then b else a
  }

  function DepthItem(item: Item): nat
    decreases item, 0
  {
    if item.Nested? then Depth(item.plan) else 0
  }

  function DepthAll(items: seq<Item>): nat
    decreases items, 0
  {
    if items == [] then 0 else Max(DepthItem(items[0]), DepthAll(items[1..]))
  }

  function DepthVariant(v: Variant): nat
    decreases v, 0
  {
    if v.PayloadVariant? then Depth(v.payload) else 0
  }

  function DepthVariants(variants: seq<Variant>): (d: nat)
    ensures forall i :: 0 <= i < |variants| ==> DepthVariant(variants[i]) <= d
    decreases variants, 0
  {
    if variants == [] then 0 else Max(DepthVariant(variants[0]), DepthVariants(variants[1..]))
  }

  /** The payload of a variant, of lesser depth than the enum. */
  function PayloadOf(plan: Plan, tag: nat): (payload: Plan)
    requires plan.Choice? && tag < |plan.variants| && plan.variants[tag].PayloadVariant?
    ensures Depth(payload) < Depth(plan)
  {
    plan.variants[tag].payload
  }

  function FlatItem(item: Item): (parts: seq<Item>)
    ensures forall i :: 0 <= i < |parts| ==> !Inlined(parts[i]) && DepthItem(parts[i]) <= DepthItem(item)
    decreases item, 0
  {
    if Inlined(item) then FlatItems(item.plan.items) else [item]
  }

  function FlatItems(items: seq<Item>): (parts: seq<Item>)
    ensures forall i :: 0 <= i < |parts| ==> !Inlined(parts[i]) && DepthItem(parts[i]) <= DepthAll(items)
    decreases items, 0
  {
    if items == [] then [] else FlatItem(items[0]) + FlatItems(items[1..])
  }

  /** The values of the parts. */
  function FlatValue(item: Item, v: Value): (ps: seq<Value>)
    ensures |ps| == |FlatItem(item)|
    decreases item, 0
  {
    if !Inlined(item) then [v]
    else if v.Record? && |v.fields| == |item.plan.items| then FlatValues(item.plan.items, v.fields)
    else seq(|FlatItem(item)|, _ => Skipped)
  }

  function FlatValues(items: seq<Item>, vs: seq<Value>): (ps: seq<Value>)
    requires |items| == |vs|
    ensures |ps| == |FlatItems(items)|
    decreases items, 0
  {
    if items == [] then [] else FlatValue(items[0], vs[0]) + FlatValues(items[1..], vs[1..])
  }

  function Rebuild(item: Item, ps: seq<Value>): Value
    requires |ps| == |FlatItem(item)|
    decreases item, 0
  {
    if Inlined(item) then Record(RebuildAll(item.plan.items, ps)) else ps[0]
  }

  function RebuildAll(items: seq<Item>, ps: seq<Value>): (vs: seq<Value>)
    requires |ps| == |FlatItems(items)|
    ensures |vs| == |items|
    decreases items, 0
  {
    if items == [] then []
    else
      var n := |FlatItem(items[0])|;
      [Rebuild(items[0], ps[..n])] + RebuildAll(items[1..], ps[n..])
  }

  // ---------- Fields ----------

  /** The flag a field is emitted with. */
  function FlagOf(e: Emitter): Option<string> {
    match e
    case Nothing => None
    case FlagIf(flag, _) => Some(flag)
    case FlagTimes(flag) => Some(flag)
    case One(_, p, _) => p.flag
    case Many(_, p, _, _) => p.flag
  }

  predicate Switch(e: Emitter) {
    e.FlagIf? || e.FlagTimes?
  }

  /** Emitted behind `--`. */
  predicate Separates(e: Emitter) {
    (e.One? || e.Many?) && e.separator
  }

  /** Emitted without a flag, as a token or some. */
  predicate Bare(e: Emitter) {
    (e.One? || e.Many?) && e.push.flag.None? && !e.separator
  }

  /** A bare field that is one token, and one that need not be. */
  predicate Fixed(e: Emitter) {
    Bare(e) && e.One? && !e.optional
  }

  predicate Open(e: Emitter) {
    Bare(e) && !Fixed(e)
  }

  /** A field with a flag that is always emitted. */
  predicate Fence(e: Emitter) {
    e.One? && !e.optional && e.push.flag.Some? && !e.separator
  }

  /** The elements of a list field. */
  function ListOf(e: Emitter, v: Value): seq<string>
    requires e.Many? && LeafTyped(e, v)
  {
    if !e.optional then v.texts else if v.maybeTexts.None? then [] else v.maybeTexts.value
  }

  /** The values a field pushes, one argument each. */
  function TextsOf(e: Emitter, v: Value): seq<string>
    requires LeafTyped(e, v)
  {
    match e
    case One(optional, _, _) =>
      if !optional then [v.text] else if v.maybe.None? then [] else [v.maybe.value]
    case Many(_, _, delimiter, _) =>
      var texts := ListOf(e, v);
      if delimiter.Some? && texts != [] then [Join(texts, delimiter.value)] else texts
    case _ => []
  }

  /** How often a switch is pushed. */
  function CountOf(e: Emitter, v: Value): nat
    requires Switch(e) && LeafTyped(e, v)
  {
    if e.FlagTimes? then v.n else if v.b == e.when then 1 else 0
  }

  predicate LeavesTyped(es: seq<Emitter>, vs: seq<Value>) {
    |es| == |vs| && forall i :: 0 <= i < |es| ==> LeafTyped(es[i], vs[i])
  }

  function EmitLeaves(es: seq<Emitter>, vs: seq<Value>): seq<string>
    requires LeavesTyped(es, vs)
  {
    if es == [] then [] else EmitLeaf(es[0], vs[0]) + EmitLeaves(es[1..], vs[1..])
  }

  // ---------- Commands ----------

  datatype Tail = NoTail | Trailing(emit: Emitter) | Commands(optional: bool, plan: Plan)

  datatype Command = Command(body: seq<Emitter>, tail: Tail)

  predicate IsTail(part: Item) {
    part.Nested? || Separates(part.emit)
  }

  function TailOf(part: Item): Tail {
    if part.Leaf? then Trailing(part.emit) else Commands(part.times.Maybe?, part.plan)
  }

  function Emitters(parts: seq<Item>): seq<Emitter> {
    seq(|parts|, i requires 0 <= i < |parts| => if parts[i].Leaf? then parts[i].emit else Nothing)
  }

  /** The parts before the tail, if there is one. */
  function BodyLength(parts: seq<Item>): (n: nat)
    ensures n <= |parts| && (n < |parts| ==> n == |parts| - 1 && IsTail(parts[n]))
  {
    if parts != [] && IsTail(parts[|parts| - 1]) then |parts| - 1 else |parts|
  }

  function CommandOf(items: seq<Item>): (c: Command)
    ensures c.tail.Commands? ==> Depth(c.tail.plan) <= DepthAll(items)
  {
    var parts := FlatItems(items);
    var n := BodyLength(parts);
    Command(Emitters(parts[..n]), if n < |parts| then TailOf(parts[n]) else NoTail)
  }

  function Flags(es: seq<Emitter>): set<string> {
    set i | 0 <= i < |es| && FlagOf(es[i]).Some? :: FlagOf(es[i]).value
  }

  function Names(t: Tail): set<string> {
    if t.Commands? && t.plan.Choice? then set i | 0 <= i < |t.plan.variants| :: t.plan.variants[i].name else {}
  }

  predicate FlagFine(flag: string) {
    |flag| >= 2 && flag[0] == '-' && flag != DASHES && '=' !in flag
  }

  function BeforeEquals(token: string): string {
    if token == "" || token[0] == '=' then "" else [token[0]] + BeforeEquals(token[1..])
  }

  /** A token that is not read as a bare value of a command with these flags. */
  predicate Stop(all: set<string>, token: string) {
    token == DASHES || BeforeEquals(token) in all
  }

  /** Only the last part is separated or a subcommand, which is one of an enum and not repeated. */
  predicate PartsOk(parts: seq<Item>) {
    && (forall i :: 0 <= i < |parts| - 1 ==> !IsTail(parts[i]))
    && (forall i :: 0 <= i < |parts| ==> parts[i].Nested? ==> !parts[i].times.Each? && parts[i].plan.Choice?)
    && (forall i :: 0 <= i < |parts| && parts[i].Leaf? && Separates(parts[i].emit) ==> FlagOf(parts[i].emit).None?)
  }

  /** Distinct flags. */
  predicate BodyOk(es: seq<Emitter>) {
    && (forall i :: 0 <= i < |es| && FlagOf(es[i]).Some? ==> FlagFine(FlagOf(es[i]).value))
    && (forall i, j :: 0 <= i < j < |es| && FlagOf(es[i]).Some? ==> FlagOf(es[j]) != FlagOf(es[i]))
  }

  predicate DistinctNames(variants: seq<Variant>) {
    forall i, j :: 0 <= i < j < |variants| ==> variants[i].name != variants[j].name
  }

  /**
   What every command of a type must be for its arguments to be a grammar at all: distinct
   flags, nothing behind a separated field or a subcommand, distinct command names that are
   not flags.
  */
  predicate Formed(plan: Plan)
    decreases Depth(plan)
  {
    match plan
    case Fields(items) =>
      var c := CommandOf(items);
      && PartsOk(FlatItems(items)) && BodyOk(c.body)
      && (c.tail.Commands? ==>
           && Formed(c.tail.plan)
           && forall name :: name in Names(c.tail) ==> !Stop(Flags(c.body), name))
    case Choice(variants) =>
      && variants != [] && DistinctNames(variants)
      && forall i :: 0 <= i < |variants| && variants[i].PayloadVariant? ==> Formed(PayloadOf(plan, i))
  }

  // ---------- Ambiguity ----------

  /** Where the first flag stands that is always there. */
  function FenceAt(es: seq<Emitter>): (k: nat)
    ensures k <= |es| && (k < |es| ==> Fence(es[k]))
    ensures forall i :: 0 <= i < k ==> !Fence(es[i])
  {
    if es == [] || Fence(es[0]) then 0 else 1 + FenceAt(es[1..])
  }

  function OpenCount(es: seq<Emitter>): nat {
    if es == [] then 0 else (if Open(es[0]) then 1 else 0) + OpenCount(es[1..])
  }

  function FixedCount(es: seq<Emitter>): nat {
    if es == [] then 0 else (if Fixed(es[0]) then 1 else 0) + FixedCount(es[1..])
  }

  /** Between two flags that are always there, at most one bare field is of open length. */
  predicate OneOpenEach(es: seq<Emitter>)
    decreases |es|
  {
    var k := FenceAt(es);
    OpenCount(es[..k]) <= 1 && (k < |es| ==> OneOpenEach(es[k + 1..]))
  }

  predicate Unambiguous(plan: Plan)
    decreases Depth(plan)
  {
    match plan
    case Fields(items) =>
      var c := CommandOf(items);
      OneOpenEach(c.body) && (c.tail.Commands? ==> Unambiguous(c.tail.plan))
    case Choice(variants) =>
      forall i :: 0 <= i < |variants| && variants[i].PayloadVariant? ==> Unambiguous(PayloadOf(plan, i))
  }

  // ---------- Values that can be read back ----------

  /** Bare values are no flags, nor names of commands where these follow; listed values are free of the delimiter. */
  predicate LeafSafe(all: set<string>, names: set<string>, e: Emitter, v: Value)
    requires LeafTyped(e, v)
  {
    && (Bare(e) ==> forall i :: 0 <= i < |TextsOf(e, v)| ==>
         !Stop(all, TextsOf(e, v)[i]) && TextsOf(e, v)[i] !in names)
    && (e.Many? && e.delimiter.Some? ==>
         forall i :: 0 <= i < |ListOf(e, v)| ==> e.delimiter.value !in ListOf(e, v)[i])
  }

  /** The names that end a group of fields: only a group of open length is ended by a name. */
  function GroupNames(names: set<string>, es: seq<Emitter>): set<string> {
    if FenceAt(es) == |es| && OpenCount(es) > 0 then names else {}
  }

  predicate BodySafe(all: set<string>, names: set<string>, es: seq<Emitter>, vs: seq<Value>)
    requires LeavesTyped(es, vs)
    decreases |es|
  {
    var k := FenceAt(es);
    && (forall i :: 0 <= i < k ==> LeafSafe(all, GroupNames(names, es), es[i], vs[i]))
    && (k < |es| ==> BodySafe(all, names, es[k + 1..], vs[k + 1..]))
  }

  predicate PartsTyped(parts: seq<Item>, ps: seq<Value>) {
    |parts| == |ps| && forall i :: 0 <= i < |parts| ==> ItemTyped(parts[i], ps[i])
  }

  lemma {:induction false} FlatTyped(items: seq<Item>, vs: seq<Value>)
    requires AllTyped(items, vs)
    ensures |items| == |vs| && PartsTyped(FlatItems(items), FlatValues(items, vs))
    decreases items, 0
  {
    if items != [] {
      FlatTypedItem(items[0], vs[0]);
      FlatTyped(items[1..], vs[1..]);
    }
  }

  lemma {:induction false} FlatTypedItem(item: Item, v: Value)
    requires ItemTyped(item, v)
    ensures PartsTyped(FlatItem(item), FlatValue(item, v))
    decreases item, 0
  {
    if Inlined(item) {
      assert Typed(item.plan, v);
      FlatTyped(item.plan.items, v.fields);
    }
  }

  lemma {:induction false} BodyTyped(parts: seq<Item>, ps: seq<Value>)
    requires PartsTyped(parts, ps) && PartsOk(parts)
    ensures var n := BodyLength(parts); LeavesTyped(Emitters(parts[..n]), ps[..n])
  {
  }

  predicate Safe(plan: Plan, v: Value)
    requires Formed(plan) && Typed(plan, v)
    decreases Depth(plan), 1
  {
    match plan
    case Fields(items) =>
      FlatTyped(items, v.fields);
      CommandSafe(items, FlatValues(items, v.fields))
    case Choice(variants) => variants[v.tag].PayloadVariant? ==> Safe(PayloadOf(plan, v.tag), v.payload)
  }

  predicate CommandSafe(items: seq<Item>, ps: seq<Value>)
    requires Formed(Fields(items)) && PartsTyped(FlatItems(items), ps)
    decreases 1 + DepthAll(items), 0
  {
    var c := CommandOf(items);
    var n := |c.body|;
    BodyTyped(FlatItems(items), ps);
    && BodySafe(Flags(c.body), Names(c.tail), c.body, ps[..n])
    && (c.tail.Trailing? ==> LeafSafe({}, {}, c.tail.emit, ps[n]))
    && (c.tail.Commands? ==> (c.tail.optional && ps[n] == Absent) || Safe(c.tail.plan, ps[n]))
  }

  // ---------- What comes back ----------

  /** An empty optional list comes back as none, a skipped field as nothing. */
  function LeafBack(e: Emitter, v: Value): Value
    requires LeafTyped(e, v)
  {
    match e
    case Nothing => Skipped
    case Many(optional, _, _, _) => if optional && v.maybeTexts == Some([]) then MaybeTexts(None) else v
    case _ => v
  }

  function Back(plan: Plan, v: Value): Value
    requires Typed(plan, v)
    decreases plan, 1
  {
    match plan
    case Fields(items) => Record(AllBack(items, v.fields))
    case Choice(variants) =>
      match variants[v.tag]
      case UnitVariant(_) => v
      case PayloadVariant(_, payload) => Chosen(v.tag, Back(payload, v.payload))
  }

  function ItemBack(item: Item, v: Value): Value
    requires ItemTyped(item, v)
    decreases item, 0
  {
    match item
    case Leaf(e) => LeafBack(e, v)
    case Nested(times, plan) =>
      match times
      case Once => Back(plan, v)
      case Maybe => if v == Absent then v else Back(plan, v)
      case Each => Several(seq(|v.values|, i requires 0 <= i < |v.values| => Back(plan, v.values[i])))
  }

  function AllBack(items: seq<Item>, vs: seq<Value>): seq<Value>
    requires AllTyped(items, vs)
    decreases items, 0
  {
    if items == [] then [] else [ItemBack(items[0], vs[0])] + AllBack(items[1..], vs[1..])
  }

  // ---------- A reader of the emitted grammar ----------

  function SplitBy(s: string, d: char): (parts: seq<string>)
    ensures parts != []
  {
    if s == "" then [""]
    else
      var parts := SplitBy(s[1..], d);
      if s[0] == d then [""] + parts else [[s[0]] + parts[0]] + parts[1..]
  }

  /** A flag with its value: its text, and what follows. */
  function ReadOne(p: Push, ts: seq<string>): (r: Option<(string, seq<string>)>)
    requires p.flag.Some?
    ensures r.Some? ==> |r.value.1| < |ts|
  {
    var flag := p.flag.value;
    if p.equals then
      if ts != [] && flag + "=" <= ts[0] then Some((ts[0][|flag| + 1..], ts[1..])) else None
    else if |ts| >= 2 && ts[0] == flag then Some((ts[1], ts[2..]))
    else None
  }

  datatype Lexeme = FlagLexeme(flag: string, value: Option<string>) | BareLexeme(text: string)

  /** The field of a flag. */
  function Owner(es: seq<Emitter>, flag: string): (r: Option<Emitter>)
    ensures r.Some? ==> FlagOf(r.value) == Some(flag)
    ensures r.None? <==> forall i :: 0 <= i < |es| ==> FlagOf(es[i]) != Some(flag)
  {
    if es == [] then None
    else if FlagOf(es[0]) == Some(flag) then Some(es[0])
    else Owner(es[1..], flag)
  }

  /** The flag of a field, with its value if it takes one. */
  function TakeFlag(e: Emitter, ts: seq<string>): (r: Option<(Lexeme, seq<string>)>)
    requires FlagOf(e).Some?
    ensures r.Some? ==> |r.value.1| < |ts|
  {
    var flag := FlagOf(e).value;
    if Switch(e) then
      if ts != [] && ts[0] == flag then Some((FlagLexeme(flag, None), ts[1..])) else None
    else
      match ReadOne(e.push, ts)
      case None => None
      case Some((text, rest)) => Some((FlagLexeme(flag, Some(text)), rest))
  }

  /** The flags of a command, those that may stand here, and the names that end the fields. */
  datatype Scope = Scope(all: set<string>, es: seq<Emitter>, names: set<string>)

  /** What is left of a limit on bare values. */
  function Less(limit: Option<nat>, n: nat): Option<nat> {
    if limit.Some? && limit.value >= n then Some(limit.value - n) else if limit.Some? then Some(0) else None
  }

  /** Flags and at most `limit` bare values, up to what belongs to no field in scope. */
  function Lex(s: Scope, limit: Option<nat>, ts: seq<string>): (seq<Lexeme>, seq<string>)
    decreases |ts|
  {
    if ts == [] then ([], ts)
    else
      var owner := Owner(s.es, BeforeEquals(ts[0]));
      if owner.Some? then
        match TakeFlag(owner.value, ts)
        case None => ([], ts)
        case Some((lexeme, rest)) =>
          var (more, left) := Lex(s, limit, rest);
          ([lexeme] + more, left)
      else if Stop(s.all, ts[0]) || ts[0] in s.names || limit == Some(0) then ([], ts)
      else
        var (more, left) := Lex(s, Less(limit, 1), ts[1..]);
        ([BareLexeme(ts[0])] + more, left)
  }

  function BareTexts(ls: seq<Lexeme>): seq<string> {
    if ls == [] then []
    else (if ls[0].BareLexeme? then [ls[0].text] else []) + BareTexts(ls[1..])
  }

  function FlagTexts(ls: seq<Lexeme>, flag: string): seq<Option<string>> {
    if ls == [] then []
    else (if ls[0].FlagLexeme? && ls[0].flag == flag then [ls[0].value] else []) + FlagTexts(ls[1..], flag)
  }

  /** The value with these texts, if they can be the ones of this field. */
  function FromTexts(e: Emitter, texts: seq<string>): Option<Value>
    requires e.One? || e.Many?
  {
    match e
    case One(optional, _, _) =>
      if |texts| > 1 then None
      else if optional then Some(MaybeText(if texts == [] then None else Some(texts[0])))
      else if texts == [] then None
      else Some(Text(texts[0]))
    case Many(optional, _, delimiter, _) =>
      if delimiter.Some? && |texts| > 1 then None
      else
        var values := if delimiter.Some? && |texts| == 1 then SplitBy(texts[0], delimiter.value) else texts;
        Some(if !optional then Texts(values) else MaybeTexts(if values == [] then None else Some(values)))
  }

  function FromCount(e: Emitter, n: nat): Option<Value>
    requires Switch(e)
  {
    if e.FlagTimes? then Some(Times(n))
    else if n > 1 then None
    else Some(Truth(if n == 1 then e.when else !e.when))
  }

  function AllPresent(values: seq<Option<string>>): Option<seq<string>> {
    if values == [] then Some([])
    else
      var more := AllPresent(values[1..]);
      if values[0].None? || more.None? then None else Some([values[0].value] + more.value)
  }

  function FromFlags(e: Emitter, values: seq<Option<string>>): Option<Value>
    requires FlagOf(e).Some?
  {
    if Switch(e) then FromCount(e, |values|)
    else
      var texts := AllPresent(values);
      if texts.None? then None else FromTexts(e, texts.value)
  }

  /** The fields of a group: flags wherever they are; bare values in order, the open field taking `wide` of them. */
  function Assign(es: seq<Emitter>, ls: seq<Lexeme>, bare: seq<string>, wide: nat): Option<seq<Value>> {
    if es == [] then if bare == [] then Some([]) else None
    else
      var e := es[0];
      var n := if Fixed(e) then 1 else if Open(e) then wide else 0;
      if n > |bare| then None
      else
        var v := if e.Nothing? then Some(Skipped)
                 else if FlagOf(e).Some? then FromFlags(e, FlagTexts(ls, FlagOf(e).value))
                 else FromTexts(e, bare[..n]);
        var more := Assign(es[1..], ls, bare[n..], wide);
        if v.None? || more.None? then None else Some([v.value] + more.value)
  }

  function ReadGroup(es: seq<Emitter>, ls: seq<Lexeme>): Option<seq<Value>> {
    var bare := BareTexts(ls);
    if |bare| < FixedCount(es) then None else Assign(es, ls, bare, |bare| - FixedCount(es))
  }

  function GroupLimit(es: seq<Emitter>): Option<nat> {
    if OpenCount(es) > 0 then None else Some(FixedCount(es))
  }

  function GroupScope(all: set<string>, names: set<string>, es: seq<Emitter>): Scope {
    Scope(all, es[..FenceAt(es)], GroupNames(names, es))
  }

  function ReadBody(all: set<string>, names: set<string>, es: seq<Emitter>, ts: seq<string>)
    : Option<(seq<Value>, seq<string>)>
    decreases |es|
  {
    var k := FenceAt(es);
    var (ls, rest) := Lex(GroupScope(all, names, es), GroupLimit(es[..k]), ts);
    match ReadGroup(es[..k], ls)
    case None => None
    case Some(vs) =>
      if k == |es| then Some((vs, rest))
      else
        match ReadOne(es[k].push, rest)
        case None => None
        case Some((text, left)) =>
          match ReadBody(all, names, es[k + 1..], left)
          case None => None
          case Some((more, end)) => Some((vs + [Text(text)] + more, end))
  }

  function ReadTrailing(e: Emitter, ts: seq<string>): Option<Value>
    requires e.One? || e.Many?
  {
    if ts == [] then FromTexts(e, []) else if ts[0] == DASHES then FromTexts(e, ts[1..]) else None
  }

  function FindVariant(variants: seq<Variant>, name: string): nat {
    if variants == [] || variants[0].name == name then 0 else 1 + FindVariant(variants[1..], name)
  }

  /** A whole command: every token must be read. */
  function Read(plan: Plan, ts: seq<string>): Option<Value>
    decreases Depth(plan), 1
  {
    match plan
    case Fields(items) =>
      var c := CommandOf(items);
      (match ReadBody(Flags(c.body), Names(c.tail), c.body, ts)
       case None => None
       case Some((vs, rest)) =>
         match ReadTail(c.tail, rest)
         case None => None
         case Some(more) =>
           if |vs + more| == |FlatItems(items)| then Some(Record(RebuildAll(items, vs + more))) else None)
    case Choice(variants) =>
      if ts == [] then None
      else
        var tag := FindVariant(variants, ts[0]);
        if tag >= |variants| then None
        else if variants[tag].UnitVariant? then
          if |ts| == 1 then Some(Chosen(tag, Skipped)) else None
        else
          match Read(PayloadOf(plan, tag), ts[1..])
          case Some(v) => Some(Chosen(tag, v))
          case None => None
  }

  function ReadTail(tail: Tail, ts: seq<string>): Option<seq<Value>>
    decreases if tail.Commands? then Depth(tail.plan) + 1 else 0, 0
  {
    match tail
    case NoTail => if ts == [] then Some([]) else None
    case Trailing(e) =>
      if !e.One? && !e.Many? then None
      else
        var v := ReadTrailing(e, ts);
        if v.None? then None else Some([v.value])
    case Commands(optional, plan) =>
      if optional && ts == [] then Some([Absent])
      else
        var v := Read(plan, ts);
        if v.None? then None else Some([v.value])
  }
}
