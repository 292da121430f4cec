/**
 The derive macro as a compiler (crates/outboard-clap-derive/src/lib.rs): from the configured
 fields and variants of a type to the plan of its arguments. What is compiled means what the
 configuration says, and a well-formed configuration gives a well-formed plan.
*/
module ArgvCompile {
  import opened Common
  import opened Argv
  import opened ArgvGrammar
  import opened ArgvRoundTrip
  import opened ArgvAmbiguity

  // ---------- Types ----------

  datatype TypeDef = Struct(fields: seq<FieldDef>) | Enum(variants: seq<VariantDef>)

  /** `derived` is the definition of the innermost type, if that derives ToArgv itself. */
  datatype FieldDef = FieldDef(cfg: FieldCfg, shape: Shape, derived: Option<TypeDef>)

  datatype VariantDef = VariantDef(name: string, payload: PayloadDef)

  datatype PayloadDef = UnitPayload | TuplePayload(def: TypeDef) | NamedPayload(fields: seq<FieldDef>)

  /** Flattened or a subcommand. */
  predicate NestedField(f: FieldDef) {
    !f.cfg.skip && (f.cfg.flatten || f.cfg.subcommand)
  }

  function TimesOf(shape: Shape): Repetition {
    if shape.optional then Maybe else if shape.vector then Each else Once
  }

  function CompileField(f: FieldDef): Result<Item, CompileError>
    decreases f, 0
  {
    if NestedField(f) then
      match f.derived
      case None => Err(NotDerived)
      case Some(def) =>
        match Compile(def)
        case Err(e) => Err(e)
        case Ok(plan) => Ok(Nested(TimesOf(f.shape), plan))
    else
      match EmitField(f.cfg, f.shape)
      case Err(e) => Err(e)
      case Ok(emit) => Ok(Leaf(emit))
  }

  function CompileFields(fields: seq<FieldDef>): (r: Result<seq<Item>, CompileError>)
    ensures r.Ok? ==> |r.value| == |fields|
    decreases fields, 0
  {
    if fields == [] then Ok([])
    else
      match CompileField(fields[0])
      case Err(e) => Err(e)
      case Ok(item) =>
        match CompileFields(fields[1..])
        case Err(e) => Err(e)
        case Ok(items) => Ok([item] + items)
  }

  function CompileVariant(v: VariantDef): Result<Variant, CompileError>
    decreases v, 0
  {
    match v.payload
    case UnitPayload => Ok(UnitVariant(v.name))
    case TuplePayload(def) =>
      (match Compile(def)
       case Err(e) => Err(e)
       case Ok(plan) => Ok(PayloadVariant(v.name, plan)))
    case NamedPayload(fields) =>
      match CompileFields(fields)
      case Err(e) => Err(e)
      case Ok(items) => Ok(PayloadVariant(v.name, Fields(items)))
  }

  function CompileVariants(variants: seq<VariantDef>): (r: Result<seq<Variant>, CompileError>)
    ensures r.Ok? ==> |r.value| == |variants|
    decreases variants, 0
  {
    if variants == [] then Ok([])
    else
      match CompileVariant(variants[0])
      case Err(e) => Err(e)
      case Ok(v) =>
        match CompileVariants(variants[1..])
        case Err(e) => Err(e)
        case Ok(vs) => Ok([v] + vs)
  }

  /** `expand_struct` and `expand_enum`. */
  function Compile(def: TypeDef): Result<Plan, CompileError>
    decreases def, 1
  {
    match def
    case Struct(fields) =>
      (match CompileFields(fields)
       case Err(e) => Err(e)
       case Ok(items) => Ok(Fields(items)))
    case Enum(variants) =>
      match CompileVariants(variants)
      case Err(e) => Err(e)
      case Ok(vs) => Ok(Choice(vs))
  }

  // ---------- What a configuration says ----------

  /** Every text of a value. */
  function TextsIn(v: Value): seq<string> {
    match v
    case Text(t) => [t]
    case MaybeText(m) => if m.Some? then [m.value] else []
    case Texts(ts) => ts
    case MaybeTexts(m) => if m.Some? then m.value else []
    case _ => []
  }

  /** A boolean that is a flag and not a value. */
  predicate IsSwitch(cfg: FieldCfg, shape: Shape) {
    || cfg.action == SetTrue || cfg.action == SetFalse
    || (cfg.action == DefaultAction && shape == Shape(false, false, true) && (cfg.long.Some? || cfg.short.Some?))
  }

  function FlagText(cfg: FieldCfg): string {
    if cfg.long.Some? then "--" + cfg.long.value else if cfg.short.Some? then "-" + [cfg.short.value] else ""
  }

  function WithFlag(flag: string, equals: bool, texts: seq<string>): seq<string> {
    if texts == [] then []
    else (if equals then [flag + "=" + texts[0]] else [flag, texts[0]]) + WithFlag(flag, equals, texts[1..])
  }

  /** The arguments of one value field, straight from its configuration. */
  function FieldArguments(cfg: FieldCfg, shape: Shape, v: Value): seq<string> {
    if cfg.skip then []
    else if IsSwitch(cfg, shape) then
      if v == Truth(cfg.action != SetFalse) then [FlagText(cfg)] else []
    else if cfg.action == Count then
      if v.Times? then Copies(FlagText(cfg), v.n) else []
    else
      var texts := TextsIn(v);
      var pushed :=
        if shape.vector && cfg.delimiter.Some? && texts != [] then [Join(texts, cfg.delimiter.value)] else texts;
      if cfg.long.Some? || cfg.short.Some? then WithFlag(FlagText(cfg), cfg.requireEquals, pushed)
      else if pushed != [] && (cfg.last || cfg.trailingVarArg) then [DASHES] + pushed
      else pushed
  }

  lemma {:induction false} WithFlagIsPushEach(p: Push, texts: seq<string>)
    requires p.flag.Some?
    ensures PushEach(p, texts) == WithFlag(p.flag.value, p.equals, texts)
  {
    if texts != [] {
      WithFlagIsPushEach(p, texts[1..]);
    }
  }

  lemma {:induction false} RepeatIsCopies(flag: string, n: nat)
    ensures Repeat(flag, n) == Copies(flag, n)
  {
    if n > 0 {
      RepeatIsCopies(flag, n - 1);
    }
  }

  lemma {:induction false} EmitterTexts(e: Emitter, v: Value)
    requires LeafTyped(e, v) && (e.One? || e.Many?)
    ensures TextsOf(e, v)
         == (if e.Many? && e.delimiter.Some? && TextsIn(v) != [] then [Join(TextsIn(v), e.delimiter.value)]
             else TextsIn(v))
  {
  }

  /** What the generated code emits for a field is what its configuration says. */
  lemma {:induction false} FieldMeans(cfg: FieldCfg, shape: Shape, v: Value)
    requires EmitField(cfg, shape).Ok? && LeafTyped(EmitField(cfg, shape).value, v)
    ensures EmitLeaf(EmitField(cfg, shape).value, v) == FieldArguments(cfg, shape, v)
  {
    var e := EmitField(cfg, shape).value;
    match e
    case Nothing =>
    case FlagIf(_, _) =>
    case FlagTimes(flag) => RepeatIsCopies(flag, v.n);
    case _ =>
      EmitterTexts(e, v);
      if e.separator {
        EmitTrailing(e, v);
      } else {
        EmitTexts(e, v);
        if e.push.flag.Some? {
          WithFlagIsPushEach(e.push, TextsOf(e, v));
        } else {
          PushEachBare(e.push, TextsOf(e, v));
        }
      }
  }

  function TypeArguments(def: TypeDef, v: Value): seq<string>
    decreases def, 1
  {
    match def
    case Struct(fields) => if v.Record? && |v.fields| == |fields| then StructArguments(fields, v.fields) else []
    case Enum(variants) =>
      if v.Chosen? && v.tag < |variants| then VariantArguments(variants[v.tag], v.payload) else []
  }

  /** A subcommand is its name and then its own arguments. */
  function VariantArguments(variant: VariantDef, v: Value): seq<string>
    decreases variant, 0
  {
    [variant.name] +
    match variant.payload
    case UnitPayload => []
    case TuplePayload(def) => TypeArguments(def, v)
    case NamedPayload(fields) => if v.Record? && |v.fields| == |fields| then StructArguments(fields, v.fields) else []
  }

  /** The fields in declaration order. */
  function StructArguments(fields: seq<FieldDef>, vs: seq<Value>): seq<string>
    requires |fields| == |vs|
    decreases fields, 0
  {
    if fields == [] then [] else NestedArguments(fields[0], vs[0]) + StructArguments(fields[1..], vs[1..])
  }

  function NestedArguments(f: FieldDef, v: Value): seq<string>
    decreases f, 0
  {
    if !NestedField(f) then FieldArguments(f.cfg, f.shape, v)
    else if f.derived.None? then []
    else if f.shape.optional then if v == Absent then [] else TypeArguments(f.derived.value, v)
    else if f.shape.vector then if v.Several? then SeveralArguments(f.derived.value, v.values) else []
    else TypeArguments(f.derived.value, v)
  }

  function SeveralArguments(def: TypeDef, vs: seq<Value>): seq<string>
    decreases def, 2, |vs|
  {
    if vs == [] then [] else SeveralArguments(def, vs[..|vs| - 1]) + TypeArguments(def, vs[|vs| - 1])
  }

  lemma {:induction false} CompiledVariant(variants: seq<VariantDef>, i: nat)
    requires CompileVariants(variants).Ok? && i < |variants|
    ensures CompileVariant(variants[i]) == Ok(CompileVariants(variants).value[i])
    decreases |variants|
  {
    if i > 0 {
      CompiledVariant(variants[1..], i - 1);
    }
  }

  /** Compiling and then emitting is what the configuration says, for every type and value. */
  lemma {:induction false} CompiledMeans(def: TypeDef, v: Value)
    requires Compile(def).Ok? && Typed(Compile(def).value, v)
    ensures ToArgv(Compile(def).value, v) == TypeArguments(def, v)
    decreases def, 1
  {
    match def
    case Struct(fields) => FieldsMean(fields, v.fields);
    case Enum(variants) =>
      CompiledVariant(variants, v.tag);
      VariantMeans(variants[v.tag], v.payload);
  }

  lemma {:induction false} VariantMeans(variant: VariantDef, v: Value)
    requires CompileVariant(variant).Ok?
    requires match CompileVariant(variant).value
      case UnitVariant(_) => v == Skipped
      case PayloadVariant(_, payload) => Typed(payload, v)
    ensures VariantArguments(variant, v) == match CompileVariant(variant).value
      case UnitVariant(name) => [name]
      case PayloadVariant(name, payload) => [name] + ToArgv(payload, v)
    decreases variant, 0
  {
    match variant.payload
    case UnitPayload =>
    case TuplePayload(def) => CompiledMeans(def, v);
    case NamedPayload(fields) =>
      assert CompileVariant(variant).value.payload == Fields(CompileFields(fields).value);
      FieldsMean(fields, v.fields);
  }

  lemma {:induction false} FieldsMean(fields: seq<FieldDef>, vs: seq<Value>)
    requires CompileFields(fields).Ok? && AllTyped(CompileFields(fields).value, vs)
    ensures |fields| == |vs| && EmitAll(CompileFields(fields).value, vs) == StructArguments(fields, vs)
    decreases fields, 0
  {
    if fields != [] {
      NestedMeans(fields[0], vs[0]);
      FieldsMean(fields[1..], vs[1..]);
      assert CompileFields(fields).value[1..] == CompileFields(fields[1..]).value;
    }
  }

  lemma {:induction false} NestedMeans(f: FieldDef, v: Value)
    requires CompileField(f).Ok? && ItemTyped(CompileField(f).value, v)
    ensures EmitItem(CompileField(f).value, v) == NestedArguments(f, v)
    decreases f, 0
  {
    if NestedField(f) {
      if f.shape.vector && !f.shape.optional {
        SeveralMean(f.derived.value, v.values);
      } else if !(f.shape.optional && v == Absent) {
        CompiledMeans(f.derived.value, v);
      }
    } else {
      FieldMeans(f.cfg, f.shape, v);
    }
  }

  lemma {:induction false} SeveralMean(def: TypeDef, vs: seq<Value>)
    requires Compile(def).Ok? && forall i :: 0 <= i < |vs| ==> Typed(Compile(def).value, vs[i])
    ensures EmitSeveral(Compile(def).value, vs) == SeveralArguments(def, vs)
    decreases def, 2, |vs|
  {
    if vs != [] {
      SeveralMean(def, vs[..|vs| - 1]);
      CompiledMeans(def, vs[|vs| - 1]);
    }
  }

  // ---------- Which configurations compile ----------

  predicate HasFlag(cfg: FieldCfg) {
    cfg.long.Some? || cfg.short.Some?
  }

  predicate PlainBool(shape: Shape) {
    !shape.optional && !shape.vector && shape.isBool
  }

  /** What a boolean action and a count ask of the field they are given to; a value asks nothing. */
  predicate FieldCompiles(cfg: FieldCfg, shape: Shape) {
    || cfg.skip
    || match cfg.action
       case SetTrue => PlainBool(shape) && HasFlag(cfg)
       case SetFalse => PlainBool(shape) && HasFlag(cfg)
       case Count => HasFlag(cfg)
       case _ => true
  }

  /** A field compiles if and only if its configuration allows it, and otherwise the error says what is wrong. */
  lemma {:induction false} FieldCompilesIff(cfg: FieldCfg, shape: Shape)
    ensures EmitField(cfg, shape).Ok? <==> FieldCompiles(cfg, shape)
    ensures var boolean := !cfg.skip && (cfg.action == SetTrue || cfg.action == SetFalse);
      && (EmitField(cfg, shape) == Err(NotPlainBool) <==> boolean && !PlainBool(shape))
      && (EmitField(cfg, shape) == Err(BoolNeedsFlag) <==> boolean && PlainBool(shape) && !HasFlag(cfg))
    ensures EmitField(cfg, shape) == Err(CountNeedsFlag) <==> !cfg.skip && cfg.action == Count && !HasFlag(cfg)
    ensures EmitField(cfg, shape) != Err(NotDerived)
  {
  }

  /** The values a field takes, from its type: the switches and counts are those of the configuration. */
  lemma {:induction false} FieldTakes(cfg: FieldCfg, shape: Shape, v: Value)
    requires FieldCompiles(cfg, shape)
    ensures LeafTyped(EmitField(cfg, shape).value, v) <==>
      if cfg.skip then true
      else if IsSwitch(cfg, shape) then v.Truth?
      else if cfg.action == Count then v.Times?
      else if shape.vector then if shape.optional then v.MaybeTexts? else v.Texts?
      else if shape.optional then v.MaybeText? else v.Text?
  {
  }

  predicate FieldOk(f: FieldDef)
    decreases f, 0
  {
    if NestedField(f) then f.derived.Some? && TypeOk(f.derived.value) else FieldCompiles(f.cfg, f.shape)
  }

  predicate VariantOk(v: VariantDef)
    decreases v, 0
  {
    match v.payload
    case UnitPayload => true
    case TuplePayload(def) => TypeOk(def)
    case NamedPayload(fields) => forall i :: 0 <= i < |fields| ==> FieldOk(fields[i])
  }

  /** Every leaf compiles, and everything flattened or a subcommand has a derived type that does. */
  predicate TypeOk(def: TypeDef)
    decreases def, 1
  {
    match def
    case Struct(fields) => forall i :: 0 <= i < |fields| ==> FieldOk(fields[i])
    case Enum(variants) => forall i :: 0 <= i < |variants| ==> VariantOk(variants[i])
  }

  lemma {:induction false} FieldOkIff(f: FieldDef)
    ensures CompileField(f).Ok? <==> FieldOk(f)
    decreases f, 0
  {
    if NestedField(f) {
      if f.derived.Some? {
        CompilesIff(f.derived.value);
      }
    } else {
      FieldCompilesIff(f.cfg, f.shape);
    }
  }

  lemma {:induction false} FieldsOkIff(fields: seq<FieldDef>)
    ensures CompileFields(fields).Ok? <==> forall i :: 0 <= i < |fields| ==> FieldOk(fields[i])
    decreases fields, 0
  {
    if fields != [] {
      FieldOkIff(fields[0]);
      FieldsOkIff(fields[1..]);
      assert forall i :: 1 <= i < |fields| ==> fields[i] == fields[1..][i - 1];
      if forall i :: 0 <= i < |fields| ==> FieldOk(fields[i]) {
        assert forall i :: 0 <= i < |fields[1..]| ==> fields[1..][i] == fields[i + 1];
      }
    }
  }

  lemma {:induction false} VariantOkIff(v: VariantDef)
    ensures CompileVariant(v).Ok? <==> VariantOk(v)
    decreases v, 0
  {
    match v.payload
    case UnitPayload =>
    case TuplePayload(def) => CompilesIff(def);
    case NamedPayload(fields) => FieldsOkIff(fields);
  }

  lemma {:induction false} VariantsOkIff(variants: seq<VariantDef>)
    ensures CompileVariants(variants).Ok? <==> forall i :: 0 <= i < |variants| ==> VariantOk(variants[i])
    decreases variants, 0
  {
    if variants != [] {
      VariantOkIff(variants[0]);
      VariantsOkIff(variants[1..]);
      assert forall i :: 1 <= i < |variants| ==> variants[i] == variants[1..][i - 1];
      if forall i :: 0 <= i < |variants| ==> VariantOk(variants[i]) {
        assert forall i :: 0 <= i < |variants[1..]| ==> variants[1..][i] == variants[i + 1];
      }
    }
  }

  /** A type compiles if and only if each of its fields does, at every depth. */
  lemma {:induction false} CompilesIff(def: TypeDef)
    ensures Compile(def).Ok? <==> TypeOk(def)
    decreases def, 1
  {
    match def
    case Struct(fields) => FieldsOkIff(fields);
    case Enum(variants) => VariantsOkIff(variants);
  }

  /** The error of a type is that of its first field, in declaration order, that does not compile. */
  lemma {:induction false} FirstFieldFails(fields: seq<FieldDef>) returns (i: nat)
    requires CompileFields(fields).Err?
    ensures i < |fields| && (forall j :: 0 <= j < i ==> FieldOk(fields[j])) && !FieldOk(fields[i])
    ensures CompileField(fields[i]).Err? && CompileFields(fields) == Err(CompileField(fields[i]).error)
    decreases |fields|
  {
    FieldOkIff(fields[0]);
    if CompileField(fields[0]).Err? {
      i := 0;
    } else {
      i := FirstFieldFails(fields[1..]);
      i := i + 1;
      forall j | 0 <= j < i ensures FieldOk(fields[j]) {
        if j > 0 {
          assert fields[j] == fields[1..][j - 1];
        }
      }
    }
  }

  // ---------- Well-formed configurations ----------

  predicate InlinedField(f: FieldDef) {
    NestedField(f) && !f.shape.optional && !f.shape.vector && f.derived.Some? && f.derived.value.Struct?
  }

  /** The fields of a command, those of flattened structs in their place. */
  function FlatFields(fields: seq<FieldDef>): seq<FieldDef>
    decreases fields, 0
  {
    if fields == [] then [] else FlatField(fields[0]) + FlatFields(fields[1..])
  }

  function FlatField(f: FieldDef): seq<FieldDef>
    decreases f, 0
  {
    if InlinedField(f) then FlatFields(f.derived.value.fields) else [f]
  }

  predicate ValueField(f: FieldDef) {
    !f.cfg.skip && !NestedField(f)
  }

  predicate Positional(f: FieldDef) {
    ValueField(f) && f.cfg.long.None? && f.cfg.short.None?
  }

  predicate TrailingField(f: FieldDef) {
    Positional(f) && (f.cfg.last || f.cfg.trailingVarArg)
  }

  /** A positional field that need not be one argument. */
  predicate OpenField(f: FieldDef) {
    Positional(f) && !TrailingField(f) && (f.shape.optional || f.shape.vector)
  }

  /** A field with a flag that is always emitted. */
  predicate FenceField(f: FieldDef) {
    && ValueField(f) && !Positional(f) && !f.shape.optional && !f.shape.vector
    && !IsSwitch(f.cfg, f.shape) && f.cfg.action != Count
  }

  /** A flag that is neither `--` nor contains `=`. */
  predicate SpelledWell(cfg: FieldCfg) {
    && (cfg.long.Some? ==> cfg.long.value != "" && '=' !in cfg.long.value)
    && (cfg.long.None? && cfg.short.Some? ==> cfg.short.value != '-' && cfg.short.value != '=')
  }

  predicate SameFlag(f: FieldDef, g: FieldDef) {
    ValueField(f) && ValueField(g) && !Positional(f) && !Positional(g) && FlagText(f.cfg) == FlagText(g.cfg)
  }

  predicate DistinctVariants(variants: seq<VariantDef>) {
    forall i, j :: 0 <= i < j < |variants| ==> variants[i].name != variants[j].name
  }

  /** The one command of a struct: distinct flags, and a trailing field or a subcommand only at the end. */
  predicate CommandConfigured(fs: seq<FieldDef>) {
    && (forall i :: 0 <= i < |fs| && ValueField(fs[i]) ==> SpelledWell(fs[i].cfg))
    && (forall i, j :: 0 <= i < j < |fs| ==> !SameFlag(fs[i], fs[j]))
    && (forall i :: 0 <= i < |fs| - 1 ==> !TrailingField(fs[i]) && !NestedField(fs[i]))
    && (forall i :: 0 <= i < |fs| && NestedField(fs[i]) ==>
         && (fs[i].shape.optional || !fs[i].shape.vector)
         && fs[i].derived.Some? && fs[i].derived.value.Enum?
         && forall k :: 0 <= k < |fs[i].derived.value.variants| ==> NoFlag(fs, fs[i].derived.value.variants[k].name))
  }

  /** A command's name is neither `--` nor one of the flags, with or without a value. */
  predicate NoFlag(fs: seq<FieldDef>, name: string) {
    && name != DASHES
    && forall i :: 0 <= i < |fs| && ValueField(fs[i]) && !Positional(fs[i]) ==>
         BeforeEquals(name) != FlagText(fs[i].cfg)
  }

  predicate Configured(def: TypeDef)
    decreases def, 1
  {
    match def
    case Struct(fields) => CommandConfigured(FlatFields(fields)) && NestedConfigured(fields)
    case Enum(variants) => variants != [] && DistinctVariants(variants) && VariantsConfigured(variants)
  }

  predicate VariantsConfigured(variants: seq<VariantDef>)
    decreases variants, 0
  {
    variants == [] || (VariantConfigured(variants[0]) && VariantsConfigured(variants[1..]))
  }

  predicate VariantConfigured(v: VariantDef)
    decreases v, 0
  {
    match v.payload
    case UnitPayload => true
    case TuplePayload(def) => Configured(def)
    case NamedPayload(fields) => CommandConfigured(FlatFields(fields)) && NestedConfigured(fields)
  }

  predicate NestedConfigured(fields: seq<FieldDef>)
    decreases fields, 0
  {
    fields == [] || (FieldConfigured(fields[0]) && NestedConfigured(fields[1..]))
  }

  predicate FieldConfigured(f: FieldDef)
    decreases f, 0
  {
    NestedField(f) && f.derived.Some? ==>
      if InlinedField(f) then NestedConfigured(f.derived.value.fields) else Configured(f.derived.value)
  }

  // ---------- A configured type is well-formed ----------

  /** The parts of a compiled command are its fields, compiled. */
  ghost predicate Matching(fs: seq<FieldDef>, parts: seq<Item>) {
    |fs| == |parts| && forall i :: 0 <= i < |fs| ==> CompileField(fs[i]) == Ok(parts[i])
  }

  lemma {:induction false} FlatCompiled(fields: seq<FieldDef>)
    requires CompileFields(fields).Ok?
    ensures Matching(FlatFields(fields), FlatItems(CompileFields(fields).value))
    decreases fields, 0
  {
    if fields != [] {
      var items := CompileFields(fields).value;
      FlatFieldCompiled(fields[0]);
      FlatCompiled(fields[1..]);
      assert items[1..] == CompileFields(fields[1..]).value;
    }
  }

  lemma {:induction false} FlatFieldCompiled(f: FieldDef)
    requires CompileField(f).Ok?
    ensures Matching(FlatField(f), FlatItem(CompileField(f).value))
    decreases f, 0
  {
    if InlinedField(f) {
      FlatCompiled(f.derived.value.fields);
    }
  }

  /** What a compiled value field is, in the terms of its configuration. */
  lemma {:induction false} CompiledField(f: FieldDef, e: Emitter)
    requires CompileField(f) == Ok(Leaf(e))
    ensures !NestedField(f) && (Separates(e) <==> TrailingField(f)) && (Separates(e) ==> FlagOf(e).None?)
    ensures FlagOf(e) == if ValueField(f) && !Positional(f) then Some(FlagText(f.cfg)) else None
    ensures (Open(e) <==> OpenField(f)) && (Fence(e) <==> FenceField(f))
  {
  }

  lemma {:induction false} SpelledIsFine(cfg: FieldCfg)
    requires SpelledWell(cfg) && (cfg.long.Some? || cfg.short.Some?)
    ensures FlagFine(FlagText(cfg))
  {
    if cfg.long.Some? {
      assert |FlagText(cfg)| > |DASHES|;
    } else {
      assert FlagText(cfg)[1] == cfg.short.value != DASHES[1];
    }
  }

  lemma {:induction false} CompiledEnum(f: FieldDef, item: Item)
    requires CompileField(f) == Ok(item) && NestedField(f) && f.derived.Some? && f.derived.value.Enum?
    requires f.shape.optional || !f.shape.vector
    ensures item.Nested? && !item.times.Each? && item.plan.Choice?
    ensures CompileVariants(f.derived.value.variants) == Ok(item.plan.variants)
  {
    assert Compile(f.derived.value) == Ok(item.plan);
  }

  lemma {:induction false} NestedIsNested(f: FieldDef, item: Item)
    requires CompileField(f) == Ok(item)
    ensures item.Nested? <==> NestedField(f)
  {
  }

  lemma {:induction false} ConfiguredParts(fs: seq<FieldDef>, parts: seq<Item>)
    requires Matching(fs, parts) && CommandConfigured(fs)
    ensures PartsOk(parts)
  {
    forall i | 0 <= i < |parts| ensures parts[i].Nested? <==> NestedField(fs[i])
                                ensures parts[i].Nested? ==> !parts[i].times.Each? && parts[i].plan.Choice?
    {
      NestedIsNested(fs[i], parts[i]);
      if NestedField(fs[i]) {
        CompiledEnum(fs[i], parts[i]);
      }
    }
    forall i | 0 <= i < |parts| && parts[i].Leaf?
      ensures Separates(parts[i].emit) <==> TrailingField(fs[i])
      ensures Separates(parts[i].emit) ==> FlagOf(parts[i].emit).None?
    {
      CompiledField(fs[i], parts[i].emit);
    }
  }

  lemma {:induction false} ConfiguredBody(fs: seq<FieldDef>, parts: seq<Item>, n: nat)
    requires Matching(fs, parts) && CommandConfigured(fs) && n <= |parts| && forall i :: 0 <= i < n ==> parts[i].Leaf?
    ensures BodyOk(Emitters(parts[..n]))
  {
    var es := Emitters(parts[..n]);
    forall i | 0 <= i < n
      ensures FlagOf(es[i]) == if ValueField(fs[i]) && !Positional(fs[i]) then Some(FlagText(fs[i].cfg)) else None
      ensures FlagOf(es[i]).Some? ==> FlagFine(FlagOf(es[i]).value)
    {
      CompiledField(fs[i], parts[i].emit);
      if FlagOf(es[i]).Some? {
        SpelledIsFine(fs[i].cfg);
      }
    }
    forall i, j | 0 <= i < j < n && FlagOf(es[i]).Some? ensures FlagOf(es[j]) != FlagOf(es[i]) {
      assert !SameFlag(fs[i], fs[j]);
    }
  }

  lemma {:induction false} CompiledNames(variants: seq<VariantDef>, i: nat)
    requires CompileVariants(variants).Ok? && i < |variants|
    ensures CompileVariants(variants).value[i].name == variants[i].name
  {
    CompiledVariant(variants, i);
  }

  lemma {:induction false} ConfiguredNames(fs: seq<FieldDef>, parts: seq<Item>, n: nat, name: string)
    requires Matching(fs, parts) && n < |parts| && parts[n].Nested? && parts[n].plan.Choice? && CommandConfigured(fs)
    requires forall i :: 0 <= i < n ==> parts[i].Leaf?
    requires exists k :: 0 <= k < |parts[n].plan.variants| && parts[n].plan.variants[k].name == name
    ensures !Stop(Flags(Emitters(parts[..n])), name)
  {
    var k :| 0 <= k < |parts[n].plan.variants| && parts[n].plan.variants[k].name == name;
    NestedIsNested(fs[n], parts[n]);
    CompiledEnum(fs[n], parts[n]);
    var variants := fs[n].derived.value.variants;
    CompiledNames(variants, k);
    assert NoFlag(fs, variants[k].name);
    var es := Emitters(parts[..n]);
    if BeforeEquals(name) in Flags(es) {
      var i :| 0 <= i < n && FlagOf(es[i]) == Some(BeforeEquals(name));
      CompiledField(fs[i], parts[i].emit);
    }
  }

  /** Each nested enum of a command is well-formed. */
  ghost predicate NestedFormed(parts: seq<Item>) {
    forall i :: 0 <= i < |parts| && parts[i].Nested? && parts[i].plan.Choice? ==> Formed(parts[i].plan)
  }

  lemma {:induction false} CommandIsFormed(fields: seq<FieldDef>)
    requires CompileFields(fields).Ok? && CommandConfigured(FlatFields(fields))
    requires NestedFormed(FlatItems(CompileFields(fields).value))
    ensures Formed(Fields(CompileFields(fields).value))
  {
    var items := CompileFields(fields).value;
    var fs, parts, c := FlatFields(fields), FlatItems(items), CommandOf(items);
    var n := BodyLength(parts);
    FlatCompiled(fields);
    ConfiguredParts(fs, parts);
    ConfiguredBody(fs, parts, n);
    if c.tail.Commands? {
      forall name | name in Names(c.tail) ensures !Stop(Flags(c.body), name) {
        ConfiguredNames(fs, parts, n, name);
      }
    }
  }

  lemma {:induction false} NestedAreFormed(fields: seq<FieldDef>)
    requires CompileFields(fields).Ok? && NestedConfigured(fields)
    ensures NestedFormed(FlatItems(CompileFields(fields).value))
    decreases fields, 0
  {
    if fields != [] {
      NestedIsFormed(fields[0]);
      NestedAreFormed(fields[1..]);
      assert CompileFields(fields).value[1..] == CompileFields(fields[1..]).value;
    }
  }

  lemma {:induction false} NestedIsFormed(f: FieldDef)
    requires CompileField(f).Ok? && FieldConfigured(f)
    ensures NestedFormed(FlatItem(CompileField(f).value))
    decreases f, 0
  {
    if NestedField(f) {
      if InlinedField(f) {
        NestedAreFormed(f.derived.value.fields);
      } else {
        CompiledIsFormed(f.derived.value);
      }
    }
  }

  lemma {:induction false} VariantIsFormed(v: VariantDef)
    requires CompileVariant(v).Ok? && VariantConfigured(v)
    ensures CompileVariant(v).value.PayloadVariant? ==> Formed(CompileVariant(v).value.payload)
    decreases v, 0
  {
    match v.payload
    case UnitPayload =>
    case TuplePayload(def) => CompiledIsFormed(def);
    case NamedPayload(fields) =>
      NestedAreFormed(fields);
      CommandIsFormed(fields);
  }

  lemma {:induction false} VariantsAreFormed(variants: seq<VariantDef>)
    requires CompileVariants(variants).Ok? && VariantsConfigured(variants)
    ensures forall i :: 0 <= i < |variants| && CompileVariants(variants).value[i].PayloadVariant? ==>
      Formed(CompileVariants(variants).value[i].payload)
    decreases variants, 0
  {
    if variants != [] {
      VariantIsFormed(variants[0]);
      VariantsAreFormed(variants[1..]);
    }
  }

  /** A well-formed configuration compiles to a well-formed plan. */
  lemma {:induction false} CompiledIsFormed(def: TypeDef)
    requires Compile(def).Ok? && Configured(def)
    ensures Formed(Compile(def).value)
    decreases def, 1
  {
    match def
    case Struct(fields) =>
      NestedAreFormed(fields);
      CommandIsFormed(fields);
    case Enum(variants) =>
      VariantsAreFormed(variants);
      var vs := CompileVariants(variants).value;
      forall i, j | 0 <= i < j < |vs| ensures vs[i].name != vs[j].name {
        CompiledNames(variants, i);
        CompiledNames(variants, j);
      }
  }

  // ---------- Unambiguous configurations ----------

  /** Between any two positional fields of open length stands a flag that is always there. */
  predicate FieldsUnambiguous(fs: seq<FieldDef>) {
    forall i, j :: 0 <= i < j < |fs| && OpenField(fs[i]) && OpenField(fs[j]) ==> FencedFields(fs, i, j)
  }

  predicate FencedFields(fs: seq<FieldDef>, i: nat, j: nat)
    requires i < j < |fs|
  {
    exists m :: i < m < j && FenceField(fs[m])
  }

  predicate ConfiguredUnambiguous(def: TypeDef)
    decreases def, 1
  {
    match def
    case Struct(fields) => FieldsUnambiguous(FlatFields(fields)) && NestedUnambiguous(fields)
    case Enum(variants) => VariantsUnambiguous(variants)
  }

  predicate VariantsUnambiguous(variants: seq<VariantDef>)
    decreases variants, 0
  {
    variants == [] || (VariantUnambiguous(variants[0]) && VariantsUnambiguous(variants[1..]))
  }

  predicate VariantUnambiguous(v: VariantDef)
    decreases v, 0
  {
    match v.payload
    case UnitPayload => true
    case TuplePayload(def) => ConfiguredUnambiguous(def)
    case NamedPayload(fields) => FieldsUnambiguous(FlatFields(fields)) && NestedUnambiguous(fields)
  }

  predicate NestedUnambiguous(fields: seq<FieldDef>)
    decreases fields, 0
  {
    fields == [] || (FieldUnambiguous(fields[0]) && NestedUnambiguous(fields[1..]))
  }

  predicate FieldUnambiguous(f: FieldDef)
    decreases f, 0
  {
    NestedField(f) && f.derived.Some? ==>
      if InlinedField(f) then NestedUnambiguous(f.derived.value.fields) else ConfiguredUnambiguous(f.derived.value)
  }

  predicate Fenced(es: seq<Emitter>, i: nat, j: nat)
    requires i < j < |es|
  {
    exists m :: i < m < j && Fence(es[m])
  }

  lemma {:induction false} CountsOpen(es: seq<Emitter>, i: nat)
    requires i < |es| && Open(es[i])
    ensures OpenCount(es) >= 1
  {
    if i > 0 {
      CountsOpen(es[1..], i - 1);
    }
  }

  lemma {:induction false} CountsTwo(es: seq<Emitter>, i: nat, j: nat)
    requires i < j < |es| && Open(es[i]) && Open(es[j])
    ensures OpenCount(es) >= 2
  {
    if i == 0 {
      CountsOpen(es[1..], j - 1);
    } else {
      CountsTwo(es[1..], i - 1, j - 1);
    }
  }

  /** Two open fields of an unambiguous body have a flag between them. */
  lemma {:induction false} OpenAreFenced(es: seq<Emitter>, i: nat, j: nat)
    requires OneOpenEach(es) && i < j < |es| && Open(es[i]) && Open(es[j])
    ensures Fenced(es, i, j)
    decreases |es|
  {
    var k := FenceAt(es);
    if j < k {
      CountsTwo(es[..k], i, j);
      assert false;
    } else if i < k {
      assert Fence(es[k]) && i < k < j;
    } else {
      var d := k + 1;
      OpenAreFenced(es[d..], i - d, j - d);
      var m :| i - d < m < j - d && Fence(es[d..][m]);
      assert Fence(es[m + d]);
    }
  }

  lemma {:induction false} OneOpenIffFenced(es: seq<Emitter>)
    ensures OneOpenEach(es) <==> forall i, j :: 0 <= i < j < |es| && Open(es[i]) && Open(es[j]) ==> Fenced(es, i, j)
  {
    if OneOpenEach(es) {
      forall i, j | 0 <= i < j < |es| && Open(es[i]) && Open(es[j]) ensures Fenced(es, i, j) {
        OpenAreFenced(es, i, j);
      }
    } else {
      var i, j := TwoOpen(es);
      assert !Fenced(es, i, j);
    }
  }

  /** In a configured command the body is unambiguous exactly when the fields are. */
  lemma {:induction false} BodyUnambiguous(fs: seq<FieldDef>, parts: seq<Item>)
    requires Matching(fs, parts) && CommandConfigured(fs)
    ensures OneOpenEach(Emitters(parts[..BodyLength(parts)])) <==> FieldsUnambiguous(fs)
  {
    var n := BodyLength(parts);
    var es := Emitters(parts[..n]);
    ConfiguredParts(fs, parts);
    forall i | 0 <= i < n ensures (Open(es[i]) <==> OpenField(fs[i])) && (Fence(es[i]) <==> FenceField(fs[i])) {
      CompiledField(fs[i], parts[i].emit);
    }
    forall i | n <= i < |fs| ensures !OpenField(fs[i]) {
      NestedIsNested(fs[i], parts[i]);
      if parts[i].Leaf? {
        CompiledField(fs[i], parts[i].emit);
      }
    }
    OneOpenIffFenced(es);
    forall i, j | 0 <= i < j < n ensures Fenced(es, i, j) <==> FencedFields(fs, i, j) {
      FencedMatches(fs, es, i, j);
    }
  }

  lemma {:induction false} FencedMatches(fs: seq<FieldDef>, es: seq<Emitter>, i: nat, j: nat)
    requires i < j < |es| <= |fs| && forall k :: 0 <= k < |es| ==> (Fence(es[k]) <==> FenceField(fs[k]))
    ensures Fenced(es, i, j) <==> FencedFields(fs, i, j)
  {
    if Fenced(es, i, j) {
      var m :| i < m < j && Fence(es[m]);
      assert FenceField(fs[m]);
    }
    if FencedFields(fs, i, j) {
      var m :| i < m < j && FenceField(fs[m]);
      assert Fence(es[m]);
    }
  }

  /** Each nested enum of a command is unambiguous. */
  ghost predicate PartsUnambiguous(parts: seq<Item>) {
    forall i :: 0 <= i < |parts| && parts[i].Nested? && parts[i].plan.Choice? ==> Unambiguous(parts[i].plan)
  }

  lemma {:induction false} CommandUnambiguous(fields: seq<FieldDef>)
    requires CompileFields(fields).Ok? && CommandConfigured(FlatFields(fields))
    requires PartsUnambiguous(FlatItems(CompileFields(fields).value)) <==> NestedUnambiguous(fields)
    ensures Unambiguous(Fields(CompileFields(fields).value)) <==>
      FieldsUnambiguous(FlatFields(fields)) && NestedUnambiguous(fields)
  {
    var items := CompileFields(fields).value;
    var fs, parts := FlatFields(fields), FlatItems(items);
    FlatCompiled(fields);
    ConfiguredParts(fs, parts);
    BodyUnambiguous(fs, parts);
    TailUnambiguous(items);
  }

  lemma {:induction false} TailUnambiguous(items: seq<Item>)
    requires PartsOk(FlatItems(items))
    ensures var c := CommandOf(items);
      (c.tail.Commands? ==> Unambiguous(c.tail.plan)) <==> PartsUnambiguous(FlatItems(items))
  {
    var parts := FlatItems(items);
    var n := BodyLength(parts);
    assert forall i :: 0 <= i < n ==> parts[i].Leaf?;
  }

  lemma {:induction false} PartsUnambiguousConcat(a: seq<Item>, b: seq<Item>)
    ensures PartsUnambiguous(a + b) <==> PartsUnambiguous(a) && PartsUnambiguous(b)
  {
    if PartsUnambiguous(a + b) {
      assert forall i :: 0 <= i < |a| ==> (a + b)[i] == a[i];
      assert forall i :: 0 <= i < |b| ==> (a + b)[|a| + i] == b[i];
    }
  }

  lemma {:induction false} NestedAreUnambiguous(fields: seq<FieldDef>)
    requires CompileFields(fields).Ok? && NestedConfigured(fields) && EnumsOnly(FlatItems(CompileFields(fields).value))
    ensures PartsUnambiguous(FlatItems(CompileFields(fields).value)) <==> NestedUnambiguous(fields)
    decreases fields, 0
  {
    if fields != [] {
      var first, more := FlatItem(CompileField(fields[0]).value), FlatItems(CompileFields(fields[1..]).value);
      assert CompileFields(fields).value[1..] == CompileFields(fields[1..]).value;
      EnumsOnlyConcat(first, more);
      NestedIsUnambiguous(fields[0]);
      NestedAreUnambiguous(fields[1..]);
      PartsUnambiguousConcat(first, more);
    }
  }

  ghost predicate EnumsOnly(parts: seq<Item>) {
    forall i :: 0 <= i < |parts| && parts[i].Nested? ==> parts[i].plan.Choice?
  }

  lemma {:induction false} EnumsOnlyConcat(a: seq<Item>, b: seq<Item>)
    requires EnumsOnly(a + b)
    ensures EnumsOnly(a) && EnumsOnly(b)
  {
    assert forall i :: 0 <= i < |a| ==> (a + b)[i] == a[i];
    assert forall i :: 0 <= i < |b| ==> (a + b)[|a| + i] == b[i];
  }

  lemma {:induction false} NestedIsUnambiguous(f: FieldDef)
    requires CompileField(f).Ok? && FieldConfigured(f) && EnumsOnly(FlatItem(CompileField(f).value))
    ensures PartsUnambiguous(FlatItem(CompileField(f).value)) <==> FieldUnambiguous(f)
    decreases f, 0
  {
    var item := CompileField(f).value;
    if NestedField(f) {
      if InlinedField(f) {
        NestedAreUnambiguous(f.derived.value.fields);
      } else {
        CompiledUnambiguous(f.derived.value);
        assert FlatItem(item)[0] == item;
      }
    }
  }

  lemma {:induction false} FieldsAreUnambiguous(fields: seq<FieldDef>)
    requires CompileFields(fields).Ok? && CommandConfigured(FlatFields(fields)) && NestedConfigured(fields)
    ensures Unambiguous(Fields(CompileFields(fields).value)) <==>
      FieldsUnambiguous(FlatFields(fields)) && NestedUnambiguous(fields)
    decreases fields, 1
  {
    FlatCompiled(fields);
    ConfiguredParts(FlatFields(fields), FlatItems(CompileFields(fields).value));
    NestedAreUnambiguous(fields);
    CommandUnambiguous(fields);
  }

  lemma {:induction false} VariantIsUnambiguous(v: VariantDef)
    requires CompileVariant(v).Ok? && VariantConfigured(v)
    ensures VariantUnambiguous(v) <==>
      (CompileVariant(v).value.PayloadVariant? ==> Unambiguous(CompileVariant(v).value.payload))
    decreases v, 0
  {
    match v.payload
    case UnitPayload =>
    case TuplePayload(def) => CompiledUnambiguous(def);
    case NamedPayload(fields) => FieldsAreUnambiguous(fields);
  }

  ghost predicate PayloadsUnambiguous(variants: seq<Variant>) {
    forall i :: 0 <= i < |variants| && variants[i].PayloadVariant? ==> Unambiguous(variants[i].payload)
  }

  lemma {:induction false} VariantsAreUnambiguous(variants: seq<VariantDef>)
    requires CompileVariants(variants).Ok? && VariantsConfigured(variants)
    ensures PayloadsUnambiguous(CompileVariants(variants).value) <==> VariantsUnambiguous(variants)
    decreases variants, 0
  {
    if variants != [] {
      var vs := CompileVariants(variants).value;
      VariantIsUnambiguous(variants[0]);
      VariantsAreUnambiguous(variants[1..]);
      assert vs[1..] == CompileVariants(variants[1..]).value && vs[0] == CompileVariant(variants[0]).value;
      PayloadsCons(vs);
    }
  }

  lemma {:induction false} PayloadsCons(vs: seq<Variant>)
    requires vs != []
    ensures PayloadsUnambiguous(vs) <==>
      (vs[0].PayloadVariant? ==> Unambiguous(vs[0].payload)) && PayloadsUnambiguous(vs[1..])
  {
    if PayloadsUnambiguous(vs) {
      assert forall i :: 0 <= i < |vs| - 1 ==> vs[1..][i] == vs[i + 1];
    }
  }

  lemma {:induction false} CompiledUnambiguous(def: TypeDef)
    requires Compile(def).Ok? && Configured(def)
    ensures Unambiguous(Compile(def).value) <==> ConfiguredUnambiguous(def)
    decreases def, 1
  {
    match def
    case Struct(fields) => FieldsAreUnambiguous(fields);
    case Enum(variants) =>
      VariantsAreUnambiguous(variants);
      ChoiceUnambiguous(Compile(def).value);
  }

  lemma {:induction false} ChoiceUnambiguous(plan: Plan)
    requires plan.Choice?
    ensures Unambiguous(plan) <==> PayloadsUnambiguous(plan.variants)
  {
    if Unambiguous(plan) {
      forall i | 0 <= i < |plan.variants| && plan.variants[i].PayloadVariant?
        ensures Unambiguous(plan.variants[i].payload)
      {
        assert PayloadOf(plan, i) == plan.variants[i].payload;
      }
    }
  }

  // ---------- Configured types ----------

  predicate ConfiguredSafe(def: TypeDef, v: Value)
    requires Compile(def).Ok? && Configured(def) && Typed(Compile(def).value, v)
  {
    CompiledIsFormed(def);
    Safe(Compile(def).value, v)
  }

  /** The arguments of a configured, unambiguous type are read back, whatever value they come from. */
  lemma {:induction false} ConfiguredRoundTrip(def: TypeDef, v: Value)
    requires Compile(def).Ok? && Configured(def) && ConfiguredUnambiguous(def)
    requires Typed(Compile(def).value, v) && ConfiguredSafe(def, v)
    ensures Read(Compile(def).value, TypeArguments(def, v)) == Some(Back(Compile(def).value, v))
  {
    CompiledMeans(def, v);
    CompiledIsFormed(def);
    CompiledUnambiguous(def);
    RoundTrip(Compile(def).value, v);
  }

  /** Among configured types, those whose arguments determine the value are the unambiguous ones. */
  lemma {:induction false} ConfiguredInjectiveIff(def: TypeDef)
    requires Compile(def).Ok? && Configured(def)
    ensures Formed(Compile(def).value)
    ensures Injective(Compile(def).value) <==> ConfiguredUnambiguous(def)
  {
    CompiledIsFormed(def);
    CompiledUnambiguous(def);
    InjectiveIffUnambiguous(Compile(def).value);
  }
}
