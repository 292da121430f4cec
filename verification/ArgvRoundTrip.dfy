/** Reading an emitted argument vector back gives the value it was emitted from. */
module ArgvRoundTrip {
  import opened Common
  import opened Argv
  import opened ArgvGrammar

  // ---------- What a field emits ----------

  lemma {:induction false} EmitTexts(e: Emitter, v: Value)
    requires LeafTyped(e, v) && (e.One? || e.Many?) && !e.separator
    ensures EmitLeaf(e, v) == PushEach(e.push, TextsOf(e, v))
  {
    var texts := TextsOf(e, v);
    if |texts| == 1 {
      assert texts[1..] == [];
      assert PushEach(e.push, texts) == PushValue(e.push, texts[0]) + [] == PushValue(e.push, texts[0]);
    }
  }

  lemma {:induction false} PushEachBare(p: Push, texts: seq<string>)
    requires p.flag.None?
    ensures PushEach(p, texts) == texts
  {
    if texts != [] {
      PushEachBare(p, texts[1..]);
    }
  }

  lemma {:induction false} EmitTrailing(e: Emitter, v: Value)
    requires LeafTyped(e, v) && Separates(e) && FlagOf(e).None?
    ensures EmitLeaf(e, v) == if TextsOf(e, v) == [] then [] else [DASHES] + TextsOf(e, v)
  {
    if e.Many? {
      PushEachBare(e.push, ListOf(e, v));
    }
  }

  lemma {:induction false} EmitSwitch(e: Emitter, v: Value)
    requires LeafTyped(e, v) && Switch(e)
    ensures EmitLeaf(e, v) == Repeat(FlagOf(e).value, CountOf(e, v))
  {
    if e.FlagIf? {
      assert Repeat(e.flag, 1) == [e.flag] + [] == [e.flag];
    }
  }

  /** What the lexer makes of a field. */
  function ValuesOf(e: Emitter, v: Value): seq<Option<string>>
    requires LeafTyped(e, v)
  {
    if Switch(e) then Nones(CountOf(e, v)) else Somes(TextsOf(e, v))
  }

  function FlagLexemes(flag: string, values: seq<Option<string>>): seq<Lexeme> {
    seq(|values|, i requires 0 <= i < |values| => FlagLexeme(flag, values[i]))
  }

  function BareLexemes(texts: seq<string>): seq<Lexeme> {
    seq(|texts|, i requires 0 <= i < |texts| => BareLexeme(texts[i]))
  }

  function LexemesOf(e: Emitter, v: Value): seq<Lexeme>
    requires LeafTyped(e, v)
  {
    if FlagOf(e).Some? then FlagLexemes(FlagOf(e).value, ValuesOf(e, v)) else BareLexemes(TextsOf(e, v))
  }

  function BareOf(e: Emitter, v: Value): seq<string>
    requires LeafTyped(e, v)
  {
    if Bare(e) then TextsOf(e, v) else []
  }

  // ---------- Tokens ----------

  lemma {:induction false} BeforeEqualsPlain(flag: string)
    requires '=' !in flag
    ensures BeforeEquals(flag) == flag
  {
    if flag != "" {
      BeforeEqualsPlain(flag[1..]);
      assert flag == [flag[0]] + flag[1..];
    }
  }

  lemma {:induction false} BeforeEqualsJoined(flag: string, text: string)
    requires '=' !in flag
    ensures BeforeEquals(flag + "=" + text) == flag
  {
    var token := flag + "=" + text;
    if flag == "" {
      assert token[0] == '=';
    } else {
      assert token[1..] == flag[1..] + "=" + text;
      BeforeEqualsJoined(flag[1..], text);
      assert flag == [flag[0]] + flag[1..];
    }
  }

  lemma {:induction false} OwnerIs(es: seq<Emitter>, i: nat)
    requires BodyOk(es) && i < |es| && FlagOf(es[i]).Some?
    ensures Owner(es, FlagOf(es[i]).value) == Some(es[i])
  {
    if i > 0 {
      OwnerIs(es[1..], i - 1);
    }
  }

  /** A scope of some of a command's fields. */
  ghost predicate ScopeOk(s: Scope) {
    BodyOk(s.es) && Flags(s.es) <= s.all && DASHES !in s.all
  }

  lemma {:induction false} HeadOfPush(p: Push, text: string)
    requires p.flag.Some? && '=' !in p.flag.value
    ensures PushValue(p, text) != [] && BeforeEquals(PushValue(p, text)[0]) == p.flag.value
  {
    if p.equals {
      BeforeEqualsJoined(p.flag.value, text);
    } else {
      BeforeEqualsPlain(p.flag.value);
    }
  }

  lemma {:induction false} OneBack(p: Push, text: string, tail: seq<string>)
    requires p.flag.Some?
    ensures ReadOne(p, PushValue(p, text) + tail) == Some((text, tail))
  {
    var ts := PushValue(p, text) + tail;
    if p.equals {
      assert ts[0][|p.flag.value| + 1..] == text;
      assert ts[1..] == tail;
    } else {
      assert ts[2..] == tail;
    }
  }

  // ---------- Lexing what a field emits ----------

  /** From `ts` the lexer makes `ls` and goes on at `tail`, with this left of its limit. */
  ghost predicate Lexes(s: Scope, limit: Option<nat>, ts: seq<string>, ls: seq<Lexeme>, left: Option<nat>,
                        tail: seq<string>) {
    Lex(s, limit, ts) == (ls + Lex(s, left, tail).0, Lex(s, left, tail).1)
  }

  lemma {:induction false} LexesNothing(s: Scope, limit: Option<nat>, ts: seq<string>, tail: seq<string>)
    requires ts == tail
    ensures Lexes(s, limit, ts, [], limit, tail)
  {
    assert [] + Lex(s, limit, tail).0 == Lex(s, limit, tail).0;
  }

  lemma {:induction false} LexesThen(s: Scope, limit: Option<nat>, ts: seq<string>, a: seq<Lexeme>,
                                     between: Option<nat>, middle: seq<string>, b: seq<Lexeme>,
                                     left: Option<nat>, tail: seq<string>)
    requires Lexes(s, limit, ts, a, between, middle) && Lexes(s, between, middle, b, left, tail)
    ensures Lexes(s, limit, ts, a + b, left, tail)
  {
    var end := Lex(s, left, tail).0;
    assert a + (b + end) == (a + b) + end;
  }

  lemma {:induction false} LexFlag(s: Scope, limit: Option<nat>, e: Emitter, ts: seq<string>, l: Lexeme,
                                   rest: seq<string>)
    requires ts != [] && Owner(s.es, BeforeEquals(ts[0])) == Some(e) && TakeFlag(e, ts) == Some((l, rest))
    ensures Lexes(s, limit, ts, [l], limit, rest)
  {
  }

  function Somes(texts: seq<string>): seq<Option<string>> {
    seq(|texts|, i requires 0 <= i < |texts| => Some(texts[i]))
  }

  function Nones(n: nat): seq<Option<string>> {
    seq(n, _ => None)
  }

  lemma {:induction false} FlagLexemesCons(flag: string, values: seq<Option<string>>)
    requires values != []
    ensures FlagLexemes(flag, values) == [FlagLexeme(flag, values[0])] + FlagLexemes(flag, values[1..])
  {
  }

  lemma {:induction false} LexTexts(s: Scope, limit: Option<nat>, e: Emitter, texts: seq<string>, tail: seq<string>)
    requires (e.One? || e.Many?) && e.push.flag.Some? && '=' !in e.push.flag.value
    requires Owner(s.es, e.push.flag.value) == Some(e)
    ensures Lexes(s, limit, PushEach(e.push, texts) + tail, FlagLexemes(e.push.flag.value, Somes(texts)), limit, tail)
    decreases |texts|
  {
    var flag := e.push.flag.value;
    var ts := PushEach(e.push, texts) + tail;
    if texts == [] {
      assert FlagLexemes(flag, Somes(texts)) == [];
      LexesNothing(s, limit, ts, tail);
    } else {
      var more := PushEach(e.push, texts[1..]) + tail;
      assert ts == PushValue(e.push, texts[0]) + more;
      HeadOfPush(e.push, texts[0]);
      OneBack(e.push, texts[0], more);
      var l := FlagLexeme(flag, Some(texts[0]));
      LexFlag(s, limit, e, ts, l, more);
      LexTexts(s, limit, e, texts[1..], tail);
      FlagLexemesCons(flag, Somes(texts));
      assert Somes(texts)[1..] == Somes(texts[1..]);
      LexesThen(s, limit, ts, [l], limit, more, FlagLexemes(flag, Somes(texts[1..])), limit, tail);
    }
  }

  lemma {:induction false} LexSwitch(s: Scope, limit: Option<nat>, e: Emitter, n: nat, tail: seq<string>)
    requires Switch(e) && '=' !in FlagOf(e).value && Owner(s.es, FlagOf(e).value) == Some(e)
    ensures Lexes(s, limit, Repeat(FlagOf(e).value, n) + tail, FlagLexemes(FlagOf(e).value, Nones(n)), limit, tail)
  {
    var flag := FlagOf(e).value;
    var ts := Repeat(flag, n) + tail;
    if n == 0 {
      assert FlagLexemes(flag, Nones(n)) == [];
      LexesNothing(s, limit, ts, tail);
    } else {
      var more := Repeat(flag, n - 1) + tail;
      assert ts == [flag] + more && ts[1..] == more;
      BeforeEqualsPlain(flag);
      var l := FlagLexeme(flag, None);
      LexFlag(s, limit, e, ts, l, more);
      LexSwitch(s, limit, e, n - 1, tail);
      FlagLexemesCons(flag, Nones(n));
      assert Nones(n)[1..] == Nones(n - 1);
      LexesThen(s, limit, ts, [l], limit, more, FlagLexemes(flag, Nones(n - 1)), limit, tail);
    }
  }

  lemma {:induction false} LexOneBare(s: Scope, limit: Option<nat>, text: string, more: seq<string>)
    requires ScopeOk(s) && limit != Some(0) && !Stop(s.all, text) && text !in s.names
    ensures Lexes(s, limit, [text] + more, [BareLexeme(text)], Less(limit, 1), more)
  {
    assert ([text] + more)[1..] == more;
  }

  lemma {:induction false} LexBare(s: Scope, limit: Option<nat>, texts: seq<string>, tail: seq<string>)
    requires ScopeOk(s) && (limit.Some? ==> |texts| <= limit.value)
    requires forall i :: 0 <= i < |texts| ==> !Stop(s.all, texts[i]) && texts[i] !in s.names
    ensures Lexes(s, limit, texts + tail, BareLexemes(texts), Less(limit, |texts|), tail)
    decreases |texts|
  {
    var ts := texts + tail;
    if texts == [] {
      LexesNothing(s, limit, ts, tail);
    } else {
      var more := texts[1..] + tail;
      assert ts == [texts[0]] + more;
      LexOneBare(s, limit, texts[0], more);
      LexBare(s, Less(limit, 1), texts[1..], tail);
      assert BareLexemes(texts) == [BareLexeme(texts[0])] + BareLexemes(texts[1..]);
      LexesThen(s, limit, ts, [BareLexeme(texts[0])], Less(limit, 1), more, BareLexemes(texts[1..]), Less(limit,
                |texts|), tail);
    }
  }

  /** The flag of a field, if it has one, is its own in the scope. */
  predicate Owned(s: Scope, e: Emitter) {
    FlagOf(e).Some? ==> '=' !in FlagOf(e).value && Owner(s.es, FlagOf(e).value) == Some(e)
  }

  /** A field of the scope is lexed as what it pushed. */
  lemma {:induction false} LexLeaf(s: Scope, limit: Option<nat>, e: Emitter, v: Value, tail: seq<string>)
    requires ScopeOk(s) && Owned(s, e) && !Separates(e)
    requires LeafTyped(e, v) && LeafSafe(s.all, s.names, e, v)
    requires limit.Some? ==> |BareOf(e, v)| <= limit.value
    ensures Lexes(s, limit, EmitLeaf(e, v) + tail, LexemesOf(e, v), Less(limit, |BareOf(e, v)|), tail)
  {
    if e.Nothing? {
      assert LexemesOf(e, v) == [];
      LexesNothing(s, limit, EmitLeaf(e, v) + tail, tail);
    } else if FlagOf(e).Some? {
      LexFlagged(s, limit, e, v, tail);
    } else {
      EmitTexts(e, v);
      PushEachBare(e.push, TextsOf(e, v));
      LexBare(s, limit, TextsOf(e, v), tail);
    }
  }

  lemma {:induction false} LexFlagged(s: Scope, limit: Option<nat>, e: Emitter, v: Value, tail: seq<string>)
    requires FlagOf(e).Some? && Owned(s, e) && !Separates(e) && LeafTyped(e, v)
    ensures Lexes(s, limit, EmitLeaf(e, v) + tail, LexemesOf(e, v), limit, tail)
  {
    if Switch(e) {
      EmitSwitch(e, v);
      LexSwitch(s, limit, e, CountOf(e, v), tail);
    } else {
      EmitTexts(e, v);
      LexTexts(s, limit, e, TextsOf(e, v), tail);
    }
  }

  // ---------- Lexing a group of fields ----------

  function LexemesAll(es: seq<Emitter>, vs: seq<Value>): seq<Lexeme>
    requires LeavesTyped(es, vs)
  {
    if es == [] then [] else LexemesOf(es[0], vs[0]) + LexemesAll(es[1..], vs[1..])
  }

  function BareAll(es: seq<Emitter>, vs: seq<Value>): seq<string>
    requires LeavesTyped(es, vs)
  {
    if es == [] then [] else BareOf(es[0], vs[0]) + BareAll(es[1..], vs[1..])
  }

  ghost predicate GroupSafe(s: Scope, es: seq<Emitter>, vs: seq<Value>)
    requires LeavesTyped(es, vs)
  {
    forall i :: 0 <= i < |es| ==> !Separates(es[i]) && LeafSafe(s.all, s.names, es[i], vs[i])
  }

  lemma {:induction false} LexFirst(s: Scope, limit: Option<nat>, es: seq<Emitter>, vs: seq<Value>, tail: seq<string>)
    requires es != [] && ScopeOk(s) && LeavesTyped(es, vs) && Owned(s, es[0])
    requires !Separates(es[0]) && LeafSafe(s.all, s.names, es[0], vs[0])
    requires limit.Some? ==> |BareOf(es[0], vs[0])| <= limit.value
    ensures Lexes(s, limit, EmitLeaves(es, vs) + tail, LexemesOf(es[0], vs[0]), Less(limit, |BareOf(es[0], vs[0])|),
                  EmitLeaves(es[1..], vs[1..]) + tail)
  {
    var more := EmitLeaves(es[1..], vs[1..]) + tail;
    assert EmitLeaves(es, vs) + tail == EmitLeaf(es[0], vs[0]) + more;
    LexLeaf(s, limit, es[0], vs[0], more);
  }

  ghost predicate GroupOk(s: Scope, es: seq<Emitter>, vs: seq<Value>) {
    LeavesTyped(es, vs) && GroupSafe(s, es, vs) && forall i :: 0 <= i < |es| ==> Owned(s, es[i])
  }

  lemma {:induction false} GroupOkTail(s: Scope, es: seq<Emitter>, vs: seq<Value>)
    requires GroupOk(s, es, vs) && es != []
    ensures GroupOk(s, es[1..], vs[1..])
  {
  }

  lemma {:induction false} LexLeaves(s: Scope, limit: Option<nat>, es: seq<Emitter>, vs: seq<Value>, tail: seq<string>)
    requires ScopeOk(s) && GroupOk(s, es, vs)
    requires limit.Some? ==> |BareAll(es, vs)| <= limit.value
    ensures Lexes(s, limit, EmitLeaves(es, vs) + tail, LexemesAll(es, vs), Less(limit, |BareAll(es, vs)|), tail)
    decreases |es|
  {
    if es == [] {
      LexesNothing(s, limit, EmitLeaves(es, vs) + tail, tail);
    } else {
      GroupOkTail(s, es, vs);
      var n, m := |BareOf(es[0], vs[0])|, |BareAll(es[1..], vs[1..])|;
      assert Less(Less(limit, n), m) == Less(limit, n + m);
      LexFirst(s, limit, es, vs, tail);
      LexLeaves(s, Less(limit, n), es[1..], vs[1..], tail);
      LexesThen(s, limit, EmitLeaves(es, vs) + tail, LexemesOf(es[0], vs[0]), Less(limit, n),
                EmitLeaves(es[1..], vs[1..]) + tail, LexemesAll(es[1..], vs[1..]), Less(limit, n + m), tail);
    }
  }

  /** What ends a group. */
  ghost predicate Ends(s: Scope, limit: Option<nat>, ts: seq<string>) {
    ts != [] ==>
      && BeforeEquals(ts[0]) !in Flags(s.es)
      && (Stop(s.all, ts[0]) || ts[0] in s.names || limit == Some(0))
  }

  lemma {:induction false} LexGroup(s: Scope, limit: Option<nat>, vs: seq<Value>, tail: seq<string>)
    requires ScopeOk(s) && LeavesTyped(s.es, vs) && GroupSafe(s, s.es, vs)
    requires limit.Some? ==> |BareAll(s.es, vs)| <= limit.value
    requires Ends(s, Less(limit, |BareAll(s.es, vs)|), tail)
    ensures Lex(s, limit, EmitLeaves(s.es, vs) + tail) == (LexemesAll(s.es, vs), tail)
  {
    forall i | 0 <= i < |s.es| ensures Owned(s, s.es[i]) {
      if FlagOf(s.es[i]).Some? {
        OwnerIs(s.es, i);
      }
    }
    LexLeaves(s, limit, s.es, vs, tail);
    assert Lex(s, Less(limit, |BareAll(s.es, vs)|), tail) == ([], tail);
    assert LexemesAll(s.es, vs) + [] == LexemesAll(s.es, vs);
  }

  // ---------- Finding the values in the lexemes ----------

  lemma {:induction false} FlagTextsConcat(a: seq<Lexeme>, b: seq<Lexeme>, flag: string)
    ensures FlagTexts(a + b, flag) == FlagTexts(a, flag) + FlagTexts(b, flag)
  {
    if a == [] {
      assert a + b == b;
    } else {
      assert (a + b)[1..] == a[1..] + b;
      FlagTextsConcat(a[1..], b, flag);
    }
  }

  lemma {:induction false} BareTextsConcat(a: seq<Lexeme>, b: seq<Lexeme>)
    ensures BareTexts(a + b) == BareTexts(a) + BareTexts(b)
  {
    if a == [] {
      assert a + b == b;
    } else {
      assert (a + b)[1..] == a[1..] + b;
      BareTextsConcat(a[1..], b);
    }
  }

  lemma {:induction false} FlagTextsOfFlag(own: string, values: seq<Option<string>>, flag: string)
    ensures FlagTexts(FlagLexemes(own, values), flag) == if flag == own then values else []
    ensures BareTexts(FlagLexemes(own, values)) == []
  {
    if values != [] {
      FlagLexemesCons(own, values);
      FlagTextsOfFlag(own, values[1..], flag);
    }
  }

  lemma {:induction false} FlagTextsOfBare(texts: seq<string>, flag: string)
    ensures FlagTexts(BareLexemes(texts), flag) == [] && BareTexts(BareLexemes(texts)) == texts
  {
    if texts != [] {
      assert BareLexemes(texts) == [BareLexeme(texts[0])] + BareLexemes(texts[1..]);
      FlagTextsOfBare(texts[1..], flag);
    }
  }

  lemma {:induction false} LeafLexemes(e: Emitter, v: Value, flag: string)
    requires LeafTyped(e, v) && !Separates(e)
    ensures FlagTexts(LexemesOf(e, v), flag) == if FlagOf(e) == Some(flag) then ValuesOf(e, v) else []
    ensures BareTexts(LexemesOf(e, v)) == BareOf(e, v)
  {
    if FlagOf(e).Some? {
      FlagTextsOfFlag(FlagOf(e).value, ValuesOf(e, v), flag);
    } else {
      FlagTextsOfBare(TextsOf(e, v), flag);
    }
  }

  lemma {:induction false} BareOfGroup(es: seq<Emitter>, vs: seq<Value>)
    requires LeavesTyped(es, vs) && forall i :: 0 <= i < |es| ==> !Separates(es[i])
    ensures BareTexts(LexemesAll(es, vs)) == BareAll(es, vs)
  {
    if es != [] {
      BareOfGroup(es[1..], vs[1..]);
      BareTextsConcat(LexemesOf(es[0], vs[0]), LexemesAll(es[1..], vs[1..]));
      LeafLexemes(es[0], vs[0], "");
    }
  }

  lemma {:induction false} NoFlagTexts(es: seq<Emitter>, vs: seq<Value>, flag: string)
    requires LeavesTyped(es, vs) && forall i :: 0 <= i < |es| ==> !Separates(es[i]) && FlagOf(es[i]) != Some(flag)
    ensures FlagTexts(LexemesAll(es, vs), flag) == []
  {
    if es != [] {
      NoFlagTexts(es[1..], vs[1..], flag);
      FlagTextsConcat(LexemesOf(es[0], vs[0]), LexemesAll(es[1..], vs[1..]), flag);
      LeafLexemes(es[0], vs[0], flag);
    }
  }

  /** A flag's lexemes are those of its own field, wherever it stands. */
  lemma {:induction false} OwnFlagTexts(es: seq<Emitter>, vs: seq<Value>, i: nat)
    requires BodyOk(es) && LeavesTyped(es, vs) && (forall j :: 0 <= j < |es| ==> !Separates(es[j]))
    requires i < |es| && FlagOf(es[i]).Some?
    ensures FlagTexts(LexemesAll(es, vs), FlagOf(es[i]).value) == ValuesOf(es[i], vs[i])
  {
    var flag := FlagOf(es[i]).value;
    FlagTextsConcat(LexemesOf(es[0], vs[0]), LexemesAll(es[1..], vs[1..]), flag);
    LeafLexemes(es[0], vs[0], flag);
    if i == 0 {
      NoFlagTexts(es[1..], vs[1..], flag);
    } else {
      OwnFlagTexts(es[1..], vs[1..], i - 1);
    }
  }

  // ---------- Lists in one argument ----------

  lemma {:induction false} SplitPlain(t: string, d: char)
    requires d !in t
    ensures SplitBy(t, d) == [t]
  {
    if t != "" {
      SplitPlain(t[1..], d);
      assert t == [t[0]] + t[1..];
    }
  }

  lemma {:induction false} SplitFirst(t: string, d: char, rest: string)
    requires d !in t
    ensures SplitBy(t + [d] + rest, d) == [t] + SplitBy(rest, d)
  {
    var s := t + [d] + rest;
    if t == "" {
      assert s[1..] == rest;
    } else {
      SplitFirst(t[1..], d, rest);
      assert s[1..] == t[1..] + [d] + rest;
      assert t == [t[0]] + t[1..];
    }
  }

  lemma {:induction false} SplitJoin(texts: seq<string>, d: char)
    requires texts != [] && forall i :: 0 <= i < |texts| ==> d !in texts[i]
    ensures SplitBy(Join(texts, d), d) == texts
  {
    if |texts| == 1 {
      SplitPlain(texts[0], d);
    } else {
      SplitJoin(texts[1..], d);
      SplitFirst(texts[0], d, Join(texts[1..], d));
    }
  }

  // ---------- The value of one field ----------

  lemma {:induction false} TextsBack(all: set<string>, names: set<string>, e: Emitter, v: Value)
    requires LeafTyped(e, v) && LeafSafe(all, names, e, v) && (e.One? || e.Many?)
    ensures FromTexts(e, TextsOf(e, v)) == Some(LeafBack(e, v))
  {
    if e.Many? && e.delimiter.Some? {
      var texts := ListOf(e, v);
      if texts != [] {
        SplitJoin(texts, e.delimiter.value);
      }
    }
  }

  lemma {:induction false} AllPresentSomes(texts: seq<string>)
    ensures AllPresent(Somes(texts)) == Some(texts)
  {
    if texts != [] {
      assert Somes(texts)[1..] == Somes(texts[1..]);
      AllPresentSomes(texts[1..]);
      assert texts == [texts[0]] + texts[1..];
    }
  }

  lemma {:induction false} FlagsBack(all: set<string>, names: set<string>, e: Emitter, v: Value)
    requires LeafTyped(e, v) && LeafSafe(all, names, e, v) && FlagOf(e).Some?
    ensures FromFlags(e, ValuesOf(e, v)) == Some(LeafBack(e, v))
  {
    if !Switch(e) {
      AllPresentSomes(TextsOf(e, v));
      TextsBack(all, names, e, v);
    }
  }

  // ---------- The values of a group ----------

  function BackAll(es: seq<Emitter>, vs: seq<Value>): seq<Value>
    requires LeavesTyped(es, vs)
  {
    seq(|es|, i requires 0 <= i < |es| => LeafBack(es[i], vs[i]))
  }

  /** Without an open field a group has its fixed number of bare values. */
  lemma {:induction false} BareCount(es: seq<Emitter>, vs: seq<Value>)
    requires LeavesTyped(es, vs)
    ensures |BareAll(es, vs)| >= FixedCount(es)
    ensures OpenCount(es) == 0 ==> |BareAll(es, vs)| == FixedCount(es)
  {
    if es != [] {
      BareCount(es[1..], vs[1..]);
    }
  }

  /** Each flag of these fields has its own values among the lexemes. */
  ghost predicate Holds(ls: seq<Lexeme>, es: seq<Emitter>, vs: seq<Value>)
    requires LeavesTyped(es, vs)
  {
    forall i :: 0 <= i < |es| && FlagOf(es[i]).Some? ==> FlagTexts(ls, FlagOf(es[i]).value) == ValuesOf(es[i], vs[i])
  }

  lemma {:induction false} AssignOne(s: Scope, e: Emitter, v: Value, ls: seq<Lexeme>, more: seq<string>, wide: nat)
    requires LeafTyped(e, v) && !Separates(e) && LeafSafe(s.all, s.names, e, v)
    requires FlagOf(e).Some? ==> FlagTexts(ls, FlagOf(e).value) == ValuesOf(e, v)
    requires Open(e) ==> wide == |TextsOf(e, v)|
    ensures var n := if Fixed(e) then 1 else if Open(e) then wide else 0;
      && n == |BareOf(e, v)| && (BareOf(e, v) + more)[..n] == BareOf(e, v) && (BareOf(e, v) + more)[n..] == more
      && (if e.Nothing? then Some(Skipped)
          else if FlagOf(e).Some? then FromFlags(e, FlagTexts(ls, FlagOf(e).value))
          else FromTexts(e, (BareOf(e, v) + more)[..n])) == Some(LeafBack(e, v))
  {
    if FlagOf(e).Some? {
      FlagsBack(s.all, s.names, e, v);
    } else if !e.Nothing? {
      TextsBack(s.all, s.names, e, v);
    }
  }

  /** One field of a group, once the others are read. */
  lemma {:induction false} AssignCons(es: seq<Emitter>, ls: seq<Lexeme>, bare: seq<string>, wide: nat, n: nat,
                                      v: Value, more: seq<Value>)
    requires es != [] && n == (if Fixed(es[0]) then 1 else if Open(es[0]) then wide else 0) && n <= |bare|
    requires (if es[0].Nothing? then Some(Skipped)
              else if FlagOf(es[0]).Some? then FromFlags(es[0], FlagTexts(ls, FlagOf(es[0]).value))
              else FromTexts(es[0], bare[..n])) == Some(v)
    requires Assign(es[1..], ls, bare[n..], wide) == Some(more)
    ensures Assign(es, ls, bare, wide) == Some([v] + more)
  {
  }

  lemma {:induction false} AssignBack(s: Scope, es: seq<Emitter>, vs: seq<Value>, ls: seq<Lexeme>, wide: nat)
    requires LeavesTyped(es, vs) && GroupSafe(s, es, vs) && Holds(ls, es, vs)
    requires OpenCount(es) <= 1 && (OpenCount(es) == 1 ==> |BareAll(es, vs)| == FixedCount(es) + wide)
    ensures Assign(es, ls, BareAll(es, vs), wide) == Some(BackAll(es, vs))
  {
    if es == [] {
      assert BackAll(es, vs) == [];
    } else {
      var e, v, more := es[0], vs[0], BareAll(es[1..], vs[1..]);
      BareCount(es[1..], vs[1..]);
      AssignOne(s, e, v, ls, more, wide);
      AssignBack(s, es[1..], vs[1..], ls, wide);
      AssignCons(es, ls, BareOf(e, v) + more, wide, |BareOf(e, v)|, LeafBack(e, v), BackAll(es[1..], vs[1..]));
      assert BackAll(es, vs) == [LeafBack(e, v)] + BackAll(es[1..], vs[1..]);
    }
  }

  lemma {:induction false} GroupBack(s: Scope, vs: seq<Value>)
    requires ScopeOk(s) && LeavesTyped(s.es, vs) && GroupSafe(s, s.es, vs) && OpenCount(s.es) <= 1
    ensures ReadGroup(s.es, LexemesAll(s.es, vs)) == Some(BackAll(s.es, vs))
  {
    var ls := LexemesAll(s.es, vs);
    BareOfGroup(s.es, vs);
    BareCount(s.es, vs);
    forall i | 0 <= i < |s.es| && FlagOf(s.es[i]).Some?
      ensures FlagTexts(ls, FlagOf(s.es[i]).value) == ValuesOf(s.es[i], vs[i])
    {
      OwnFlagTexts(s.es, vs, i);
    }
    AssignBack(s, s.es, vs, ls, |BareAll(s.es, vs)| - FixedCount(s.es));
  }

  // ---------- The body of a command ----------

  lemma {:induction false} EmitAppend(a: seq<Emitter>, va: seq<Value>, b: seq<Emitter>, vb: seq<Value>)
    requires LeavesTyped(a, va) && LeavesTyped(b, vb)
    ensures LeavesTyped(a + b, va + vb) && EmitLeaves(a + b, va + vb) == EmitLeaves(a, va) + EmitLeaves(b, vb)
  {
    if a == [] {
      assert a + b == b && va + vb == vb;
    } else {
      EmitAppend(a[1..], va[1..], b, vb);
      EmitCons(a, va, b, vb);
      Associate(EmitLeaf(a[0], va[0]), EmitLeaves(a[1..], va[1..]), EmitLeaves(b, vb));
    }
  }

  lemma {:induction false} EmitCons(a: seq<Emitter>, va: seq<Value>, b: seq<Emitter>, vb: seq<Value>)
    requires a != [] && LeavesTyped(a, va) && LeavesTyped(b, vb) && LeavesTyped(a[1..] + b, va[1..] + vb)
    ensures LeavesTyped(a + b, va + vb)
    ensures EmitLeaves(a + b, va + vb) == EmitLeaf(a[0], va[0]) + EmitLeaves(a[1..] + b, va[1..] + vb)
  {
    assert (a + b)[1..] == a[1..] + b && (va + vb)[1..] == va[1..] + vb;
  }

  lemma {:induction false} Associate(a: seq<string>, b: seq<string>, c: seq<string>)
    ensures a + (b + c) == (a + b) + c
  {
  }

  /** The flags of a whole command, of which these are some fields. */
  ghost predicate BodyIn(all: set<string>, es: seq<Emitter>) {
    && BodyOk(es) && Flags(es) <= all && DASHES !in all
    && forall i :: 0 <= i < |es| ==> !Separates(es[i])
  }

  lemma {:induction false} SubBody(all: set<string>, es: seq<Emitter>, a: nat, b: nat)
    requires BodyIn(all, es) && a <= b <= |es|
    ensures BodyIn(all, es[a..b])
  {
    var sub := es[a..b];
    forall flag | flag in Flags(sub) ensures flag in all {
      var i :| 0 <= i < |sub| && FlagOf(sub[i]) == Some(flag);
      assert FlagOf(es[a + i]) == Some(flag);
      assert flag in Flags(es);
    }
  }

  /** What may follow the body. */
  ghost predicate TailFits(all: set<string>, names: set<string>, ts: seq<string>) {
    ts != [] ==> ts[0] == DASHES || (ts[0] in names && !Stop(all, ts[0]))
  }

  lemma {:induction false} DashesAreDashes()
    ensures BeforeEquals(DASHES) == DASHES
  {
    BeforeEqualsPlain(DASHES);
  }

  /** The last group ends where the body does. */
  lemma {:induction false} LastEnds(all: set<string>, names: set<string>, es: seq<Emitter>, vs: seq<Value>,
                                    tail: seq<string>)
    requires BodyIn(all, es) && LeavesTyped(es, vs) && FenceAt(es) == |es| && TailFits(all, names, tail)
    ensures Ends(Scope(all, es, GroupNames(names, es)), Less(GroupLimit(es), |BareAll(es, vs)|), tail)
  {
    DashesAreDashes();
    BareCount(es, vs);
  }

  /** A group before a flag that is always there ends at that flag. */
  lemma {:induction false} FenceEnds(all: set<string>, names: set<string>, es: seq<Emitter>, k: nat, text: string,
                                     limit: Option<nat>, more: seq<string>)
    requires BodyIn(all, es) && k < |es| && Fence(es[k])
    ensures Ends(Scope(all, es[..k], names), limit, PushValue(es[k].push, text) + more)
  {
    var flag := es[k].push.flag.value;
    HeadOfPush(es[k].push, text);
    assert flag in Flags(es);
  }

  lemma {:induction false} GroupReads(all: set<string>, names: set<string>, es: seq<Emitter>, vs: seq<Value>,
                                      tail: seq<string>)
    requires BodyIn(all, es) && LeavesTyped(es, vs) && OpenCount(es) <= 1
    requires forall i :: 0 <= i < |es| ==> LeafSafe(all, names, es[i], vs[i])
    requires Ends(Scope(all, es, names), Less(GroupLimit(es), |BareAll(es, vs)|), tail)
    ensures Lex(Scope(all, es, names), GroupLimit(es), EmitLeaves(es, vs) + tail) == (LexemesAll(es, vs), tail)
    ensures ReadGroup(es, LexemesAll(es, vs)) == Some(BackAll(es, vs))
  {
    var s := Scope(all, es, names);
    BareCount(es, vs);
    LexGroup(s, GroupLimit(es), vs, tail);
    GroupBack(s, vs);
  }

  lemma {:induction false} LastGroupBack(all: set<string>, names: set<string>, es: seq<Emitter>, vs: seq<Value>,
                                         tail: seq<string>)
    requires BodyIn(all, es) && LeavesTyped(es, vs) && BodySafe(all, names, es, vs) && OneOpenEach(es)
    requires TailFits(all, names, tail) && FenceAt(es) == |es|
    ensures ReadBody(all, names, es, EmitLeaves(es, vs) + tail) == Some((BackAll(es, vs), tail))
  {
    assert es[..|es|] == es;
    LastEnds(all, names, es, vs, tail);
    GroupReads(all, GroupNames(names, es), es, vs, tail);
  }

  lemma {:induction false} EmitOne(e: Emitter, v: Value)
    requires LeafTyped(e, v)
    ensures EmitLeaves([e], [v]) == EmitLeaf(e, v)
  {
    assert [e][1..] == [] && [v][1..] == [];
  }

  lemma {:induction false} Regroup(a: seq<string>, b: seq<string>, c: seq<string>, d: seq<string>)
    ensures a + (b + c) + d == a + (b + (c + d))
  {
  }

  /** The tokens of a body: its first group, the flag that ends it, and the rest. */
  lemma {:induction false} EmitSplit(es: seq<Emitter>, vs: seq<Value>, k: nat, tail: seq<string>)
    requires LeavesTyped(es, vs) && k < |es| && Fence(es[k])
    ensures EmitLeaves(es, vs) + tail
         == EmitLeaves(es[..k], vs[..k])
              + (PushValue(es[k].push, vs[k].text) + (EmitLeaves(es[k + 1..], vs[k + 1..]) + tail))
  {
    var later, values := es[k + 1..], vs[k + 1..];
    assert es == es[..k] + ([es[k]] + later) && vs == vs[..k] + ([vs[k]] + values);
    EmitAppend(es[..k], vs[..k], [es[k]] + later, [vs[k]] + values);
    EmitAppend([es[k]], [vs[k]], later, values);
    EmitOne(es[k], vs[k]);
    assert EmitLeaf(es[k], vs[k]) == PushValue(es[k].push, vs[k].text);
    Regroup(EmitLeaves(es[..k], vs[..k]), PushValue(es[k].push, vs[k].text), EmitLeaves(es[k + 1..], vs[k + 1..]),
            tail);
  }

  lemma {:induction false} BackSplit(es: seq<Emitter>, vs: seq<Value>, k: nat)
    requires LeavesTyped(es, vs) && k < |es| && Fence(es[k])
    ensures BackAll(es, vs) == BackAll(es[..k], vs[..k]) + [Text(vs[k].text)] + BackAll(es[k + 1..], vs[k + 1..])
  {
  }

  /** How a body with a flag that is always there is read. */
  lemma {:induction false} ReadBodyStep(all: set<string>, names: set<string>, es: seq<Emitter>, ts: seq<string>, k: nat,
                                        ls: seq<Lexeme>, rest: seq<string>, first: seq<Value>, text: string,
                                         left: seq<string>,
                                        more: seq<Value>, end: seq<string>)
    requires k == FenceAt(es) < |es| && Lex(GroupScope(all, names, es), GroupLimit(es[..k]), ts) == (ls, rest)
    requires ReadGroup(es[..k], ls) == Some(first) && ReadOne(es[k].push, rest) == Some((text, left))
    requires ReadBody(all, names, es[k + 1..], left) == Some((more, end))
    ensures ReadBody(all, names, es, ts) == Some((first + [Text(text)] + more, end))
  {
  }

  lemma {:induction false} FirstGroupBack(all: set<string>, names: set<string>, es: seq<Emitter>, vs: seq<Value>,
                                          k: nat, more: seq<string>)
    requires BodyIn(all, es) && LeavesTyped(es, vs) && BodySafe(all, names, es, vs) && OneOpenEach(es)
    requires k == FenceAt(es) < |es|
    ensures var rest := PushValue(es[k].push, vs[k].text) + more;
      && Lex(GroupScope(all, names, es), GroupLimit(es[..k]), EmitLeaves(es[..k], vs[..k]) + rest)
         == (LexemesAll(es[..k], vs[..k]), rest)
      && ReadGroup(es[..k], LexemesAll(es[..k], vs[..k])) == Some(BackAll(es[..k], vs[..k]))
  {
    var rest := PushValue(es[k].push, vs[k].text) + more;
    SubBody(all, es, 0, k);
    assert es[0..k] == es[..k];
    FenceEnds(all, {}, es, k, vs[k].text, Less(GroupLimit(es[..k]), |BareAll(es[..k], vs[..k])|), more);
    GroupReads(all, {}, es[..k], vs[..k], rest);
  }

  lemma {:induction false} BodyBack(all: set<string>, names: set<string>, es: seq<Emitter>, vs: seq<Value>,
                                    tail: seq<string>)
    requires BodyIn(all, es) && LeavesTyped(es, vs) && BodySafe(all, names, es, vs) && OneOpenEach(es)
    requires TailFits(all, names, tail)
    ensures ReadBody(all, names, es, EmitLeaves(es, vs) + tail) == Some((BackAll(es, vs), tail))
    decreases |es|
  {
    var k := FenceAt(es);
    if k == |es| {
      LastGroupBack(all, names, es, vs, tail);
    } else {
      var more := EmitLeaves(es[k + 1..], vs[k + 1..]) + tail;
      SubBody(all, es, k + 1, |es|);
      assert es[k + 1..|es|] == es[k + 1..];
      EmitSplit(es, vs, k, tail);
      BackSplit(es, vs, k);
      FirstGroupBack(all, names, es, vs, k, more);
      OneBack(es[k].push, vs[k].text, more);
      BodyBack(all, names, es[k + 1..], vs[k + 1..], tail);
      ReadBodyStep(all, names, es, EmitLeaves(es, vs) + tail, k, LexemesAll(es[..k], vs[..k]),
                   PushValue(es[k].push, vs[k].text) + more, BackAll(es[..k], vs[..k]), vs[k].text, more,
                   BackAll(es[k + 1..], vs[k + 1..]), tail);
    }
  }

  // ---------- Flattened structs ----------

  function EmitParts(parts: seq<Item>, ps: seq<Value>): seq<string>
    requires PartsTyped(parts, ps)
  {
    if parts == [] then [] else EmitItem(parts[0], ps[0]) + EmitParts(parts[1..], ps[1..])
  }

  lemma {:induction false} PartsTypedConcat(a: seq<Item>, va: seq<Value>, b: seq<Item>, vb: seq<Value>)
    requires PartsTyped(a, va) && PartsTyped(b, vb)
    ensures PartsTyped(a + b, va + vb)
  {
  }

  lemma {:induction false} EmitPartsConcat(a: seq<Item>, va: seq<Value>, b: seq<Item>, vb: seq<Value>)
    requires PartsTyped(a, va) && PartsTyped(b, vb)
    ensures PartsTyped(a + b, va + vb) && EmitParts(a + b, va + vb) == EmitParts(a, va) + EmitParts(b, vb)
  {
    PartsTypedConcat(a, va, b, vb);
    if a == [] {
      assert a + b == b && va + vb == vb;
    } else {
      EmitPartsConcat(a[1..], va[1..], b, vb);
      assert (a + b)[1..] == a[1..] + b && (va + vb)[1..] == va[1..] + vb;
    }
  }

  /** Inlining a struct changes no token. */
  lemma {:induction false} FlatEmits(items: seq<Item>, vs: seq<Value>)
    requires AllTyped(items, vs)
    ensures PartsTyped(FlatItems(items), FlatValues(items, vs))
    ensures EmitAll(items, vs) == EmitParts(FlatItems(items), FlatValues(items, vs))
    decreases items, 0
  {
    FlatTyped(items, vs);
    if items != [] {
      FlatItemEmits(items[0], vs[0]);
      FlatEmits(items[1..], vs[1..]);
      EmitPartsConcat(FlatItem(items[0]), FlatValue(items[0], vs[0]), FlatItems(items[1..]), FlatValues(items[1..],
                      vs[1..]));
    }
  }

  lemma {:induction false} FlatItemEmits(item: Item, v: Value)
    requires ItemTyped(item, v)
    ensures PartsTyped(FlatItem(item), FlatValue(item, v))
    ensures EmitItem(item, v) == EmitParts(FlatItem(item), FlatValue(item, v))
    decreases item, 0
  {
    FlatTypedItem(item, v);
    if Inlined(item) {
      assert Typed(item.plan, v);
      FlatEmits(item.plan.items, v.fields);
    } else {
      assert FlatItem(item)[1..] == [] && FlatValue(item, v)[1..] == [];
    }
  }

  function BackParts(parts: seq<Item>, ps: seq<Value>): seq<Value>
    requires PartsTyped(parts, ps)
  {
    seq(|parts|, i requires 0 <= i < |parts| => ItemBack(parts[i], ps[i]))
  }

  lemma {:induction false} BackPartsConcat(a: seq<Item>, va: seq<Value>, b: seq<Item>, vb: seq<Value>)
    requires PartsTyped(a, va) && PartsTyped(b, vb)
    ensures PartsTyped(a + b, va + vb)
    ensures BackParts(a + b, va + vb)[..|a|] == BackParts(a, va) && BackParts(a + b, va + vb)[|a|..] == BackParts(b, vb)
  {
  }

  /** What comes back of a struct is what comes back of its parts. */
  lemma {:induction false} RebuildBack(items: seq<Item>, vs: seq<Value>)
    requires AllTyped(items, vs)
    ensures PartsTyped(FlatItems(items), FlatValues(items, vs))
    ensures RebuildAll(items, BackParts(FlatItems(items), FlatValues(items, vs))) == AllBack(items, vs)
    decreases items, 0
  {
    FlatTyped(items, vs);
    if items != [] {
      RebuildItemBack(items[0], vs[0]);
      RebuildBack(items[1..], vs[1..]);
      BackPartsConcat(FlatItem(items[0]), FlatValue(items[0], vs[0]), FlatItems(items[1..]), FlatValues(items[1..],
                      vs[1..]));
    }
  }

  lemma {:induction false} RebuildItemBack(item: Item, v: Value)
    requires ItemTyped(item, v)
    ensures PartsTyped(FlatItem(item), FlatValue(item, v))
    ensures Rebuild(item, BackParts(FlatItem(item), FlatValue(item, v))) == ItemBack(item, v)
    decreases item, 0
  {
    FlatTypedItem(item, v);
    if Inlined(item) {
      assert Typed(item.plan, v);
      RebuildBack(item.plan.items, v.fields);
    }
  }

  // ---------- Whole commands ----------

  function TailTokens(parts: seq<Item>, ps: seq<Value>): seq<string>
    requires PartsTyped(parts, ps)
  {
    var n := BodyLength(parts);
    if n < |parts| then EmitItem(parts[n], ps[n]) else []
  }

  lemma {:induction false} EmitBody(parts: seq<Item>, ps: seq<Value>)
    requires PartsTyped(parts, ps) && forall i :: 0 <= i < |parts| ==> parts[i].Leaf?
    ensures LeavesTyped(Emitters(parts), ps) && EmitParts(parts, ps) == EmitLeaves(Emitters(parts), ps)
  {
    if parts != [] {
      EmitBody(parts[1..], ps[1..]);
      assert Emitters(parts)[1..] == Emitters(parts[1..]);
    }
  }

  /** A command's tokens: its body, then its tail. */
  lemma {:induction false} EmitCommand(parts: seq<Item>, ps: seq<Value>)
    requires PartsTyped(parts, ps) && PartsOk(parts)
    ensures var n := BodyLength(parts);
      && LeavesTyped(Emitters(parts[..n]), ps[..n])
      && EmitParts(parts, ps) == EmitLeaves(Emitters(parts[..n]), ps[..n]) + TailTokens(parts, ps)
  {
    var n := BodyLength(parts);
    EmitBody(parts[..n], ps[..n]);
    EmitPartsConcat(parts[..n], ps[..n], parts[n..], ps[n..]);
    assert parts == parts[..n] + parts[n..] && ps == ps[..n] + ps[n..];
    if n < |parts| {
      assert parts[n..][1..] == [] && ps[n..][1..] == [];
    }
  }

  lemma {:induction false} BodyOfCommand(items: seq<Item>)
    requires PartsOk(FlatItems(items)) && BodyOk(CommandOf(items).body)
    ensures var c := CommandOf(items); BodyIn(Flags(c.body), c.body)
  {
  }

  lemma {:induction false} FindNamed(variants: seq<Variant>, tag: nat)
    requires DistinctNames(variants) && tag < |variants|
    ensures FindVariant(variants, variants[tag].name) == tag
  {
    if tag > 0 {
      FindNamed(variants[1..], tag - 1);
    }
  }

  /** A subcommand that is there. */
  lemma {:induction false} TailCommand(items: seq<Item>, ps: seq<Value>)
    requires Formed(Fields(items)) && PartsTyped(FlatItems(items), ps) && CommandOf(items).tail.Commands?
    ensures var c, parts := CommandOf(items), FlatItems(items); var n := BodyLength(parts);
      && n == |parts| - 1 && c.tail.plan.Choice?
      && (ps[n] == Absent ==> c.tail.optional && TailTokens(parts, ps) == [] && BackParts(parts, ps)[n..] == [Absent])
      && (ps[n] != Absent ==>
           && Typed(c.tail.plan, ps[n]) && TailTokens(parts, ps) == ToArgv(c.tail.plan, ps[n])
           && BackParts(parts, ps)[n..] == [Back(c.tail.plan, ps[n])])
  {
    var parts := FlatItems(items);
    var n := BodyLength(parts);
    assert parts[n].Nested? && !parts[n].times.Each? && ItemTyped(parts[n], ps[n]);
    assert BackParts(parts, ps)[n..] == [ItemBack(parts[n], ps[n])];
  }

  /** The tail starts with `--` or a command's name. */
  lemma {:induction false} TailStarts(items: seq<Item>, ps: seq<Value>)
    requires Formed(Fields(items)) && PartsTyped(FlatItems(items), ps)
    ensures var c := CommandOf(items);
      TailFits(Flags(c.body), Names(c.tail), TailTokens(FlatItems(items), ps))
  {
    var parts, c := FlatItems(items), CommandOf(items);
    var n := BodyLength(parts);
    if c.tail.Trailing? {
      EmitTrailing(parts[n].emit, ps[n]);
    } else if c.tail.Commands? {
      TailCommand(items, ps);
      if ps[n] != Absent {
        var tag := ps[n].tag;
        assert c.tail.plan.variants[tag].name in Names(c.tail);
        assert ToArgv(c.tail.plan, ps[n])[0] == c.tail.plan.variants[tag].name;
      }
    }
  }

  lemma {:induction false} TrailingBack(e: Emitter, v: Value)
    requires LeafTyped(e, v) && Separates(e) && FlagOf(e).None? && LeafSafe({}, {}, e, v)
    ensures ReadTrailing(e, EmitLeaf(e, v)) == Some(LeafBack(e, v))
  {
    EmitTrailing(e, v);
    TextsBack({}, {}, e, v);
    assert TextsOf(e, v) != [] ==> ([DASHES] + TextsOf(e, v))[1..] == TextsOf(e, v);
  }

  lemma {:induction false} TailBack(items: seq<Item>, ps: seq<Value>)
    requires Formed(Fields(items)) && Unambiguous(Fields(items))
    requires PartsTyped(FlatItems(items), ps) && CommandSafe(items, ps)
    ensures var parts := FlatItems(items); var n := BodyLength(parts);
      ReadTail(CommandOf(items).tail, TailTokens(parts, ps)) == Some(BackParts(parts, ps)[n..])
    decreases 1 + DepthAll(items), 0
  {
    var parts, c := FlatItems(items), CommandOf(items);
    var n := BodyLength(parts);
    if c.tail.NoTail? {
      assert BackParts(parts, ps)[n..] == [];
    } else if c.tail.Trailing? {
      TrailingBack(c.tail.emit, ps[n]);
      assert BackParts(parts, ps)[n..] == [ItemBack(parts[n], ps[n])];
    } else {
      TailCommand(items, ps);
      if ps[n] != Absent {
        RoundTrip(c.tail.plan, ps[n]);
        assert ToArgv(c.tail.plan, ps[n]) != [];
      }
    }
  }

  lemma {:induction false} ReadCommandStep(items: seq<Item>, ts: seq<string>, vs: seq<Value>, rest: seq<string>,
                                           more: seq<Value>)
    requires var c := CommandOf(items); ReadBody(Flags(c.body), Names(c.tail), c.body, ts) == Some((vs, rest))
    requires ReadTail(CommandOf(items).tail, rest) == Some(more)
    requires |vs + more| == |FlatItems(items)|
    ensures Read(Fields(items), ts) == Some(Record(RebuildAll(items, vs + more)))
  {
  }

  lemma {:induction false} BodyIsSafe(items: seq<Item>, ps: seq<Value>)
    requires Formed(Fields(items)) && PartsTyped(FlatItems(items), ps) && CommandSafe(items, ps)
    ensures var c := CommandOf(items); var n := BodyLength(FlatItems(items));
      && LeavesTyped(c.body, ps[..n]) && BodySafe(Flags(c.body), Names(c.tail), c.body, ps[..n])
  {
    BodyTyped(FlatItems(items), ps);
  }

  lemma {:induction false} BackOfBody(parts: seq<Item>, ps: seq<Value>)
    requires PartsTyped(parts, ps) && PartsOk(parts)
    ensures var n := BodyLength(parts);
      LeavesTyped(Emitters(parts[..n]), ps[..n]) && BackAll(Emitters(parts[..n]), ps[..n]) == BackParts(parts, ps)[..n]
  {
  }

  lemma {:induction false} CommandBodyBack(items: seq<Item>, ps: seq<Value>)
    requires Formed(Fields(items)) && Unambiguous(Fields(items))
    requires PartsTyped(FlatItems(items), ps) && CommandSafe(items, ps)
    ensures var parts, c := FlatItems(items), CommandOf(items); var n := BodyLength(parts);
      ReadBody(Flags(c.body), Names(c.tail), c.body, EmitParts(parts, ps))
        == Some((BackParts(parts, ps)[..n], TailTokens(parts, ps)))
  {
    var parts, c := FlatItems(items), CommandOf(items);
    var n := BodyLength(parts);
    EmitCommand(parts, ps);
    BodyOfCommand(items);
    TailStarts(items, ps);
    BodyIsSafe(items, ps);
    BodyBack(Flags(c.body), Names(c.tail), c.body, ps[..n], TailTokens(parts, ps));
    BackOfBody(parts, ps);
  }

  /** A command reads back from its own tokens, part by part. */
  lemma {:induction false} CommandBack(items: seq<Item>, ps: seq<Value>)
    requires Formed(Fields(items)) && Unambiguous(Fields(items))
    requires PartsTyped(FlatItems(items), ps) && CommandSafe(items, ps)
    ensures Read(Fields(items), EmitParts(FlatItems(items), ps))
         == Some(Record(RebuildAll(items, BackParts(FlatItems(items), ps))))
    decreases 1 + DepthAll(items), 1
  {
    var parts := FlatItems(items);
    var back, n := BackParts(parts, ps), BodyLength(parts);
    assert back[..n] + back[n..] == back;
    CommandBodyBack(items, ps);
    TailBack(items, ps);
    ReadCommandStep(items, EmitParts(parts, ps), back[..n], TailTokens(parts, ps), back[n..]);
  }

  /**
   For every well-formed and unambiguous command and every value that its grammar can tell
   apart, reading the emitted arguments gives the value back, an empty optional list as none.
  */
  lemma {:induction false} RoundTrip(plan: Plan, v: Value)
    requires Formed(plan) && Unambiguous(plan) && Typed(plan, v) && Safe(plan, v)
    ensures Read(plan, ToArgv(plan, v)) == Some(Back(plan, v))
    decreases Depth(plan), 2
  {
    match plan
    case Fields(items) =>
      FlatTyped(items, v.fields);
      FlatEmits(items, v.fields);
      RebuildBack(items, v.fields);
      CommandBack(items, FlatValues(items, v.fields));
    case Choice(variants) =>
      FindNamed(variants, v.tag);
      if variants[v.tag].PayloadVariant? {
        RoundTrip(PayloadOf(plan, v.tag), v.payload);
        assert ToArgv(plan, v)[1..] == ToArgv(variants[v.tag].payload, v.payload);
      }
  }
}
