/**
 Typed values to argument vectors (crates/outboard-clap-derive/src/lib.rs and
 crates/outboard-clap/src/lib.rs): the derive macro compiles each field's configuration and type
 shape into an emitter, and the emitters write the arguments. An argument value is the text
 that its type's conversion produces.
*/
module Argv {
  import opened Common

  // ---------- What the macro is given ----------

  datatype Action = DefaultAction | ValueAction | SetTrue | SetFalse | Count

  datatype FieldCfg = FieldCfg(
    long: Option<string>, short: Option<char>, action: Action,
    requireEquals: bool, delimiter: Option<char>,
    flatten: bool, subcommand: bool, skip: bool, last: bool, trailingVarArg: bool)

  /** `type_shape`: Option and Vec peeled off, and whether what is left is `bool`. */
  datatype Shape = Shape(optional: bool, vector: bool, isBool: bool)

  // ---------- What it generates ----------

  /** `push_flag_value` or a plain push. */
  datatype Push = Push(flag: Option<string>, equals: bool)

  datatype Emitter =
    | Nothing
    | FlagIf(flag: string, when: bool)
    | FlagTimes(flag: string)
    | One(optional: bool, push: Push, separator: bool)
    | Many(optional: bool, push: Push, delimiter: Option<char>, separator: bool)

  datatype CompileError = NotPlainBool | BoolNeedsFlag | CountNeedsFlag | NotDerived

  const DASHES := "--"

  function ConfiguredFlag(cfg: FieldCfg): Option<string> {
    if cfg.long.Some? then Some("--" + cfg.long.value)
    else if cfg.short.Some? then Some("-" + [cfg.short.value])
    else None
  }

  /** A plain boolean with a flag and no explicit action is a switch. */
  function ActionOf(cfg: FieldCfg, shape: Shape): Action {
    if cfg.action == DefaultAction && !shape.optional && !shape.vector && shape.isBool && ConfiguredFlag(cfg).Some?
    then SetTrue else cfg.action
  }

  /** `emit_field`, for a field that is neither flattened nor a subcommand. */
  function EmitField(cfg: FieldCfg, shape: Shape): Result<Emitter, CompileError> {
    if cfg.skip then Ok(Nothing)
    else
      var flag := ConfiguredFlag(cfg);
      var action := ActionOf(cfg, shape);
      if action == SetTrue || action == SetFalse then
        if shape.optional || shape.vector || !shape.isBool then Err(NotPlainBool)
        else if flag.None? then Err(BoolNeedsFlag)
        else Ok(FlagIf(flag.value, action == SetTrue))
      else if action == Count then
        if flag.None? then Err(CountNeedsFlag) else Ok(FlagTimes(flag.value))
      else
        var separator := flag.None? && (cfg.last || cfg.trailingVarArg);
        var push := Push(flag, cfg.requireEquals);
        Ok(if shape.vector then Many(shape.optional, push, cfg.delimiter, separator)
           else One(shape.optional, push, separator))
  }

  /** The code generated for a type: its fields in order, or its variants. */
  datatype Plan = Fields(items: seq<Item>) | Choice(variants: seq<Variant>)

  /** How often a nested value is appended: its own, in an Option, or in a Vec. */
  datatype Repetition = Once | Maybe | Each

  /** A field: a value, or what is flattened or a subcommand, which generate the same code. */
  datatype Item = Leaf(emit: Emitter) | Nested(times: Repetition, plan: Plan)

  datatype Variant = UnitVariant(name: string) | PayloadVariant(name: string, payload: Plan)

  // ---------- Values ----------

  datatype Value =
    | Skipped
    | Truth(b: bool)
    | Times(n: nat)
    | Text(text: string)
    | MaybeText(maybe: Option<string>)
    | Texts(texts: seq<string>)
    | MaybeTexts(maybeTexts: Option<seq<string>>)
    | Record(fields: seq<Value>)
    | Chosen(tag: nat, payload: Value)
    | Absent
    | Several(values: seq<Value>)

  predicate LeafTyped(e: Emitter, v: Value) {
    match e
    case Nothing => true
    case FlagIf(_, _) => v.Truth?
    case FlagTimes(_) => v.Times?
    case One(optional, _, _) => if optional then v.MaybeText? else v.Text?
    case Many(optional, _, _, _) => if optional then v.MaybeTexts? else v.Texts?
  }

  predicate Typed(plan: Plan, v: Value)
    decreases plan, 1
  {
    match plan
    case Fields(items) => v.Record? && AllTyped(items, v.fields)
    case Choice(variants) =>
      && v.Chosen? && v.tag < |variants|
      && (match variants[v.tag]
          case UnitVariant(_) => v.payload == Skipped
          case PayloadVariant(_, payload) => Typed(payload, v.payload))
  }

  predicate ItemTyped(item: Item, v: Value)
    decreases item, 0
  {
    match item
    case Leaf(e) => LeafTyped(e, v)
    case Nested(times, plan) =>
      match times
      case Once => Typed(plan, v)
      case Maybe => v == Absent || Typed(plan, v)
      case Each => v.Several? && forall i :: 0 <= i < |v.values| ==> Typed(plan, v.values[i])
  }

  predicate AllTyped(items: seq<Item>, vs: seq<Value>)
    decreases items, 0
  {
    |items| == |vs| && (items == [] || (ItemTyped(items[0], vs[0]) && AllTyped(items[1..], vs[1..])))
  }

  // ---------- What a value becomes ----------

  function PushValue(p: Push, text: string): seq<string> {
    match p.flag
    case None => [text]
    case Some(flag) => if p.equals then [flag + "=" + text] else [flag, text]
  }

  function PushEach(p: Push, texts: seq<string>): seq<string> {
    if texts == [] then [] else PushValue(p, texts[0]) + PushEach(p, texts[1..])
  }

  function Join(texts: seq<string>, d: char): string
    requires texts != []
  {
    if |texts| == 1 then texts[0] else texts[0] + [d] + Join(texts[1..], d)
  }

  function Repeat(flag: string, n: nat): seq<string> {
    if n == 0 then [] else [flag] + Repeat(flag, n - 1)
  }

  function Separator(separator: bool): seq<string> {
    if separator then [DASHES] else []
  }

  function EmitVector(p: Push, delimiter: Option<char>, separator: bool, texts: seq<string>): seq<string> {
    if texts == [] then []
    else if delimiter.Some? then Separator(separator) + PushValue(p, Join(texts, delimiter.value))
    else Separator(separator) + PushEach(p, texts)
  }

  function EmitLeaf(e: Emitter, v: Value): seq<string>
    requires LeafTyped(e, v)
  {
    match e
    case Nothing => []
    case FlagIf(flag, when) => if v.b == when then [flag] else []
    case FlagTimes(flag) => Repeat(flag, v.n)
    case One(optional, p, separator) =>
      if optional then
        if v.maybe.None? then [] else Separator(separator) + PushValue(p, v.maybe.value)
      else Separator(separator) + PushValue(p, v.text)
    case Many(optional, p, delimiter, separator) =>
      if optional then
        if v.maybeTexts.None? then [] else EmitVector(p, delimiter, separator, v.maybeTexts.value)
      else EmitVector(p, delimiter, separator, v.texts)
  }

  /** `ToArgv::to_argv`. */
  function ToArgv(plan: Plan, v: Value): seq<string>
    requires Typed(plan, v)
    decreases plan, 1
  {
    match plan
    case Fields(items) => EmitAll(items, v.fields)
    case Choice(variants) =>
      match variants[v.tag]
      case UnitVariant(name) => [name]
      case PayloadVariant(name, payload) => [name] + ToArgv(payload, v.payload)
  }

  function EmitItem(item: Item, v: Value): seq<string>
    requires ItemTyped(item, v)
    decreases item, 0
  {
    match item
    case Leaf(e) => EmitLeaf(e, v)
    case Nested(times, plan) =>
      match times
      case Once => ToArgv(plan, v)
      case Maybe => if v == Absent then [] else ToArgv(plan, v)
      case Each => EmitSeveral(plan, v.values)
  }

  function EmitSeveral(plan: Plan, vs: seq<Value>): seq<string>
    requires forall i :: 0 <= i < |vs| ==> Typed(plan, vs[i])
    decreases plan, 2, |vs|
  {
    if vs == [] then [] else EmitSeveral(plan, vs[..|vs| - 1]) + ToArgv(plan, vs[|vs| - 1])
  }

  function EmitAll(items: seq<Item>, vs: seq<Value>): seq<string>
    requires AllTyped(items, vs)
    decreases items, 0
  {
    if items == [] then [] else EmitItem(items[0], vs[0]) + EmitAll(items[1..], vs[1..])
  }

  // ---------- The generated code, pushing onto a vector ----------

  class ArgvBuilder {
    var argv: seq<string>

    constructor ()
      ensures argv == []
    {
      argv := [];
    }

    method Push(p: Push, value: string)
      modifies this
      ensures argv == old(argv) + PushValue(p, value)
    {
      match p.flag {
        case None => argv := argv + [value];
        case Some(flag) =>
          if p.equals {
            var v := flag;
            v := v + "=";
            v := v + value;
            argv := argv + [v];
          } else {
            argv := argv + [flag];
            argv := argv + [value];
          }
      }
    }

    method Vector(p: Push, delimiter: Option<char>, separator: bool, texts: seq<string>)
      modifies this
      ensures argv == old(argv) + EmitVector(p, delimiter, separator, texts)
    {
      if texts != [] && separator {
        argv := argv + [DASHES];
      }
      if delimiter.Some? {
        if texts != [] {
          var joined := JoinTexts(texts, delimiter.value);
          Push(p, joined);
        }
      } else {
        PushAll(p, texts);
      }
    }

    method PushAll(p: Push, texts: seq<string>)
      modifies this
      ensures argv == old(argv) + PushEach(p, texts)
    {
      for i := 0 to |texts|
        invariant argv + PushEach(p, texts[i..]) == old(argv) + PushEach(p, texts)
      {
        assert texts[i..][1..] == texts[i + 1..];
        Push(p, texts[i]);
      }
      assert argv + PushEach(p, []) == argv;
    }

    /** `append_argv`. */
    method Append(plan: Plan, v: Value)
      requires Typed(plan, v)
      modifies this
      ensures argv == old(argv) + ToArgv(plan, v)
      decreases plan, 1
    {
      match plan {
        case Choice(variants) =>
          argv := argv + [variants[v.tag].name];
          if variants[v.tag].PayloadVariant? {
            Append(variants[v.tag].payload, v.payload);
          }
        case Fields(items) => AppendAll(items, v.fields);
      }
    }

    method AppendAll(items: seq<Item>, vs: seq<Value>)
      requires AllTyped(items, vs)
      modifies this
      ensures argv == old(argv) + EmitAll(items, vs)
      decreases items, 0
    {
      if items != [] {
        AppendItem(items[0], vs[0]);
        AppendAll(items[1..], vs[1..]);
      }
    }

    method AppendItem(item: Item, v: Value)
      requires ItemTyped(item, v)
      modifies this
      ensures argv == old(argv) + EmitItem(item, v)
      decreases item, 0
    {
      match item
      case Leaf(e) => AppendLeaf(e, v);
      case Nested(times, plan) =>
        if times.Each? {
          AppendSeveral(plan, v.values);
        } else if !(times.Maybe? && v == Absent) {
          Append(plan, v);
        }
    }

    method AppendSeveral(plan: Plan, vs: seq<Value>)
      requires forall i :: 0 <= i < |vs| ==> Typed(plan, vs[i])
      modifies this
      ensures argv == old(argv) + EmitSeveral(plan, vs)
      decreases plan, 2
    {
      for i := 0 to |vs|
        invariant argv == old(argv) + EmitSeveral(plan, vs[..i])
      {
        assert vs[..i + 1][..i] == vs[..i];
        Append(plan, vs[i]);
      }
      assert vs[..|vs|] == vs;
    }

    method AppendLeaf(e: Emitter, v: Value)
      requires LeafTyped(e, v)
      modifies this
      ensures argv == old(argv) + EmitLeaf(e, v)
    {
      match e
      case Nothing =>
      case FlagIf(flag, when) =>
        if v.b == when {
          argv := argv + [flag];
        }
      case FlagTimes(flag) =>
        for i := 0 to v.n
          invariant argv + Repeat(flag, v.n - i) == old(argv) + Repeat(flag, v.n)
        {
          argv := argv + [flag];
        }
      case One(optional, p, separator) =>
        var text := if optional then v.maybe else Some(v.text);
        if text.Some? {
          argv := argv + Separator(separator);
          Push(p, text.value);
        }
      case Many(optional, p, delimiter, separator) =>
        var texts := if optional then v.maybeTexts else Some(v.texts);
        if texts.Some? {
          Vector(p, delimiter, separator, texts.value);
        }
    }
  }

  /** The generated joining loop. */
  method JoinTexts(texts: seq<string>, d: char) returns (joined: string)
    requires texts != []
    ensures joined == Join(texts, d)
  {
    joined := "";
    var first := true;
    for i := 0 to |texts|
      invariant first <==> i == 0
      invariant i == 0 ==> joined == ""
      invariant i > 0 && i < |texts| ==> joined + [d] + Join(texts[i..], d) == Join(texts, d)
      invariant i == |texts| ==> joined == Join(texts, d)
    {
      assert i + 1 < |texts| ==> texts[i..][1..] == texts[i + 1..];
      if !first {
        joined := joined + [d];
      }
      first := false;
      joined := joined + texts[i];
    }
  }
}
