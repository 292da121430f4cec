/** Word splitting and renaming of identifiers (crates/outboard-clap-derive/src/lib.rs). */
module Words {
  // ---------- ASCII ----------

  predicate IsUpper(c: char) { 'A' <= c <= 'Z' }

  predicate IsLower(c: char) { 'a' <= c <= 'z' }

  predicate IsSeparator(c: char) { c == '_' || c == '-' }

  function ToLower(c: char): char {
    if IsUpper(c) then (c as int + 32) as char else c
  }

  function ToUpper(c: char): char {
    if IsLower(c) then (c as int - 32) as char else c
  }

  function Lowercase(s: string): string {
    seq(|s|, i requires 0 <= i < |s| => ToLower(s[i]))
  }

  function Uppercase(s: string): string {
    seq(|s|, i requires 0 <= i < |s| => ToUpper(s[i]))
  }

  // ---------- The scanner ----------

  /** An upper-case letter inside a run starts a word next to a lower-case one. */
  predicate Cut(s: string, i: nat)
    requires i < |s|
  {
    && IsUpper(s[i])
    && i > 0 && !IsSeparator(s[i - 1])
    && (IsLower(s[i - 1]) || (i + 1 < |s| && IsLower(s[i + 1])))
  }

  predicate StartsWord(s: string, i: nat)
    requires i < |s|
  {
    i == 0 || IsSeparator(s[i - 1]) || Cut(s, i)
  }

  /** One more character: skipped, starting a word, or lengthening the last one. */
  function Absorb(ws: seq<string>, c: char, starts: bool): seq<string> {
    if IsSeparator(c) then ws
    else if starts || ws == [] then ws + [[ToLower(c)]]
    else ws[..|ws| - 1] + [ws[|ws| - 1] + [ToLower(c)]]
  }

  /** The words begun in the first `n` characters, in lower case. */
  function Split(s: string, n: nat): seq<string>
    requires n <= |s|
  {
    if n == 0 then [] else Absorb(Split(s, n - 1), s[n - 1], StartsWord(s, n - 1))
  }

  function WordsOf(s: string): seq<string> {
    Split(s, |s|)
  }

  method SplitWords(name: string) returns (out: seq<string>)
    ensures out == WordsOf(name)
  {
    out := [];
    var cur := "";
    for i := 0 to |name|
      invariant cur == "" <==> (i == 0 || IsSeparator(name[i - 1]))
      invariant Split(name, i) == if cur == "" then out else out + [Lowercase(cur)]
    {
      var ch := name[i];
      if IsSeparator(ch) {
        if cur != "" {
          out := out + [Lowercase(cur)];
          cur := "";
        }
        continue;
      }
      var boundary := IsUpper(ch) && cur != ""
        && ((i > 0 && IsLower(name[i - 1])) || (i + 1 < |name| && IsLower(name[i + 1])));
      ghost var before := Split(name, i);
      assert StartsWord(name, i) <==> cur == "" || boundary;
      if boundary {
        out := out + [Lowercase(cur)];
        cur := "";
      }
      assert Lowercase(cur + [ch]) == Lowercase(cur) + [ToLower(ch)];
      assert cur != "" ==> before[..|before| - 1] == out && before[|before| - 1] == Lowercase(cur);
      assert cur == "" ==> before == out && Lowercase(cur) + [ToLower(ch)] == [ToLower(ch)];
      assert Split(name, i + 1) == out + [Lowercase(cur) + [ToLower(ch)]];
      cur := cur + [ch];
    }
    if cur != "" {
      out := out + [Lowercase(cur)];
    }
  }

  // ---------- What splitting keeps ----------

  function Concat(ws: seq<string>): string {
    if ws == [] then "" else Concat(ws[..|ws| - 1]) + ws[|ws| - 1]
  }

  function Letters(s: string): string {
    if s == "" then ""
    else Letters(s[..|s| - 1]) + if IsSeparator(s[|s| - 1]) then "" else [ToLower(s[|s| - 1])]
  }

  predicate IsWord(w: string) {
    w != "" && forall i :: 0 <= i < |w| ==> !IsSeparator(w[i]) && !IsUpper(w[i])
  }

  predicate AreWords(ws: seq<string>) {
    forall k :: 0 <= k < |ws| ==> IsWord(ws[k])
  }

  lemma {:induction false} AbsorbKeepsLetters(ws: seq<string>, c: char, starts: bool)
    requires AreWords(ws)
    ensures AreWords(Absorb(ws, c, starts))
    ensures Concat(Absorb(ws, c, starts)) == Concat(ws) + if IsSeparator(c) then "" else [ToLower(c)]
  {
    var n := |ws| - 1;
    if !IsSeparator(c) {
      if starts || ws == [] {
        assert (ws + [[ToLower(c)]])[..|ws|] == ws;
      } else {
        assert (ws[..n] + [ws[n] + [ToLower(c)]])[..n] == ws[..n];
        assert IsWord(ws[n]);
      }
    }
  }

  lemma {:induction false} SplitKeepsLetters(s: string, n: nat, letters: string)
    requires n <= |s| && letters == s[..n]
    ensures AreWords(Split(s, n)) && Concat(Split(s, n)) == Letters(letters)
  {
    if n > 0 {
      SplitKeepsLetters(s, n - 1, letters[..n - 1]);
      AbsorbKeepsLetters(Split(s, n - 1), s[n - 1], StartsWord(s, n - 1));
    }
  }

  /** No letter of a name is lost, moved or invented, and no word is empty. */
  lemma {:induction false} WordsKeepLetters(name: string)
    ensures AreWords(WordsOf(name)) && Concat(WordsOf(name)) == Letters(name)
  {
    SplitKeepsLetters(name, |name|, name);
  }

  // ---------- Splitting a rendered list of words again ----------

  /** Character `i` of the word `w` is at its place in `s` and starts no other word. */
  ghost predicate CharAt(s: string, n: nat, w: string, i: nat)
    requires i < |w|
  {
    n + |w| <= |s| && ToLower(s[n + i]) == w[i] && (i > 0 ==> !Cut(s, n + i))
  }

  /** A piece of `s` at `n` that reads as the word `w` and is not cut inside. */
  ghost predicate PieceAt(s: string, n: nat, w: string) {
    n + |w| <= |s| && forall i :: 0 <= i < |w| ==> CharAt(s, n, w, i)
  }

  lemma {:induction false} AbsorbInto(ws: seq<string>, w: string, c: char)
    requires !IsSeparator(c)
    ensures Absorb(ws + [w], c, false) == ws + [w + [ToLower(c)]]
  {
    assert (ws + [w])[..|ws|] == ws;
  }

  lemma {:induction false} SplitPiece(s: string, n: nat, w: string, m: nat)
    requires IsWord(w) && PieceAt(s, n, w) && 1 <= m <= |w| && StartsWord(s, n)
    ensures Split(s, n + m) == Split(s, n) + [w[..m]]
  {
    var c := s[n + (m - 1)];
    assert CharAt(s, n, w, m - 1) && !IsSeparator(w[m - 1]);
    assert w[..m] == w[..m - 1] + [w[m - 1]];
    if m > 1 {
      assert CharAt(s, n, w, m - 2) && !IsSeparator(w[m - 2]);
      assert !StartsWord(s, n + (m - 1));
      SplitPiece(s, n, w, m - 1);
      AbsorbInto(Split(s, n), w[..m - 1], c);
    } else {
      assert w[..1] == [ToLower(c)];
    }
  }

  /** Where word `k` starts when the words are laid out `gap` characters apart. */
  function Offset(ws: seq<string>, gap: nat, k: nat): nat
    requires k <= |ws|
  {
    if k == 0 then 0 else Offset(ws, gap, k - 1) + |ws[k - 1]| + gap
  }

  /** Word `k` is at its place in `s`, after a separator where there is a gap. */
  ghost predicate WordAt(s: string, ws: seq<string>, gap: nat, k: nat)
    requires k < |ws|
  {
    var n := Offset(ws, gap, k);
    PieceAt(s, n, ws[k]) && (gap == 1 && k > 0 ==> n >= 1 && IsSeparator(s[n - 1]))
  }

  ghost predicate Begins(s: string, ws: seq<string>, gap: nat, k: nat)
    requires k < |ws|
  {
    var n := Offset(ws, gap, k);
    n < |s| && StartsWord(s, n)
  }

  /** `s` is the words laid out. */
  ghost predicate Layout(s: string, ws: seq<string>, gap: nat) {
    && AreWords(ws) && gap <= 1
    && |s| + (if ws == [] then 0 else gap) == Offset(ws, gap, |ws|)
    && (forall k :: 0 <= k < |ws| ==> WordAt(s, ws, gap, k))
  }

  /** Splitting reaches word `k` with the earlier words and adds just this one. */
  ghost predicate AddsWord(s: string, ws: seq<string>, gap: nat, k: nat)
    requires k < |ws|
  {
    var n := Offset(ws, gap, k);
    && n + |ws[k]| <= |s|
    && Split(s, n + |ws[k]|) == Split(s, n) + [ws[k]]
    && (k > 0 ==> n >= gap && Split(s, n) == Split(s, n - gap))
  }

  lemma {:induction false} LayoutAdds(s: string, ws: seq<string>, gap: nat, k: nat)
    requires Layout(s, ws, gap) && k < |ws| && Begins(s, ws, gap, k)
    ensures AddsWord(s, ws, gap, k)
  {
    assert WordAt(s, ws, gap, k) && IsWord(ws[k]);
    SplitPiece(s, Offset(ws, gap, k), ws[k], |ws[k]|);
    assert ws[k][..|ws[k]|] == ws[k];
  }

  lemma {:induction false} SplitAdded(s: string, ws: seq<string>, gap: nat, k: nat)
    requires k < |ws| && forall j :: 0 <= j <= k ==> AddsWord(s, ws, gap, j)
    ensures Offset(ws, gap, k) + |ws[k]| <= |s|
    ensures Split(s, Offset(ws, gap, k) + |ws[k]|) == ws[..k + 1]
  {
    assert AddsWord(s, ws, gap, k);
    var n := Offset(ws, gap, k);
    if k > 0 {
      SplitAdded(s, ws, gap, k - 1);
      assert n - gap == Offset(ws, gap, k - 1) + |ws[k - 1]|;
    }
    assert Split(s, n) == ws[..k];
    assert ws[..k + 1] == ws[..k] + [ws[k]];
  }

  lemma {:induction false} SplitLayout(s: string, ws: seq<string>, gap: nat, k: nat)
    requires Layout(s, ws, gap) && k < |ws| && forall j :: 0 <= j <= k ==> Begins(s, ws, gap, j)
    ensures Offset(ws, gap, k) + |ws[k]| <= |s|
    ensures Split(s, Offset(ws, gap, k) + |ws[k]|) == ws[..k + 1]
  {
    forall j | 0 <= j <= k ensures AddsWord(s, ws, gap, j) {
      LayoutAdds(s, ws, gap, j);
    }
    SplitAdded(s, ws, gap, k);
  }

  lemma {:induction false} LayoutRoundTrip(s: string, ws: seq<string>, gap: nat)
    requires Layout(s, ws, gap) && forall j :: 0 <= j < |ws| ==> Begins(s, ws, gap, j)
    ensures WordsOf(s) == ws
  {
    if ws != [] {
      SplitLayout(s, ws, gap, |ws| - 1);
      assert ws[..|ws|] == ws;
    }
  }

  lemma {:induction false} OffsetOfPrefix(ws: seq<string>, us: seq<string>, gap: nat, k: nat)
    requires k <= |us| <= |ws| && forall j :: 0 <= j < |us| ==> |us[j]| == |ws[j]|
    ensures Offset(us, gap, k) == Offset(ws, gap, k)
  {
    if k > 0 {
      OffsetOfPrefix(ws, us, gap, k - 1);
    }
  }

  // ---------- Separated renderings ----------

  function Joined(ws: seq<string>, sep: char): string {
    if ws == [] then ""
    else if |ws| == 1 then ws[0]
    else Joined(ws[..|ws| - 1], sep) + [sep] + ws[|ws| - 1]
  }

  lemma {:induction false} JoinedLength(ws: seq<string>, sep: char)
    ensures |Joined(ws, sep)| + (if ws == [] then 0 else 1) == Offset(ws, 1, |ws|)
  {
    var n := |ws| - 1;
    if ws != [] {
      JoinedLength(ws[..n], sep);
      OffsetOfPrefix(ws, ws[..n], 1, n);
    }
  }

  lemma {:induction false} JoinedAt(ws: seq<string>, sep: char, k: nat)
    requires k < |ws|
    ensures var s, n := Joined(ws, sep), Offset(ws, 1, k);
      && n + |ws[k]| <= |s| && s[n..n + |ws[k]|] == ws[k]
      && (k > 0 ==> n >= 1 && s[n - 1] == sep)
  {
    var m := |ws| - 1;
    JoinedLength(ws[..m], sep);
    OffsetOfPrefix(ws, ws[..m], 1, m);
    if k < m {
      JoinedAt(ws[..m], sep, k);
      OffsetOfPrefix(ws, ws[..m], 1, k);
      var s, inner, n := Joined(ws, sep), Joined(ws[..m], sep), Offset(ws, 1, k);
      assert s[..|inner|] == inner;
      assert s[n..n + |ws[k]|] == inner[n..n + |ws[k]|];
    }
  }

  /** A text that is the joined words up to case, and is never cut, lays them out. */
  lemma {:induction false} JoinedLayout(ws: seq<string>, sep: char, s: string)
    requires AreWords(ws) && IsSeparator(sep) && Lowercase(s) == Joined(ws, sep)
    requires forall i :: 0 <= i < |s| ==> !Cut(s, i)
    ensures WordsOf(s) == ws
  {
    var text := Joined(ws, sep);
    assert |s| == |text| && forall i :: 0 <= i < |s| ==> ToLower(s[i]) == text[i];
    JoinedLength(ws, sep);
    forall k | 0 <= k < |ws| ensures WordAt(s, ws, 1, k) && Begins(s, ws, 1, k) {
      var n := Offset(ws, 1, k);
      JoinedAt(ws, sep, k);
      assert IsWord(ws[k]);
      forall i | 0 <= i < |ws[k]| ensures CharAt(s, n, ws[k], i) {
        assert text[n..n + |ws[k]|][i] == text[n + i];
      }
    }
    LayoutRoundTrip(s, ws, 1);
  }

  lemma {:induction false} JoinedHasNoUpper(ws: seq<string>, sep: char)
    requires AreWords(ws) && IsSeparator(sep)
    ensures forall i :: 0 <= i < |Joined(ws, sep)| ==> !IsUpper(Joined(ws, sep)[i])
  {
    if |ws| > 1 {
      JoinedHasNoUpper(ws[..|ws| - 1], sep);
    }
  }

  /** Kebab, snake and screaming snake case split back into the same words. */
  lemma {:induction false} SeparatedRoundTrip(ws: seq<string>, sep: char)
    requires AreWords(ws) && IsSeparator(sep)
    ensures WordsOf(Joined(ws, sep)) == ws
    ensures WordsOf(Uppercase(Joined(ws, sep))) == ws
  {
    var text := Joined(ws, sep);
    var loud := Uppercase(text);
    JoinedHasNoUpper(ws, sep);
    assert Lowercase(text) == text;
    JoinedLayout(ws, sep, text);
    assert Lowercase(loud) == text;
    assert forall i :: 0 <= i < |loud| ==> !IsLower(loud[i]);
    JoinedLayout(ws, sep, loud);
  }

  // ---------- Case-marked renderings ----------

  function Capitalize(w: string): string {
    if w == "" then "" else [ToUpper(w[0])] + w[1..]
  }

  /** PascalCase capitalizes every word, camelCase all but the first. */
  function Piece(ws: seq<string>, camel: bool, k: nat): string
    requires k < |ws|
  {
    if camel && k == 0 then ws[k] else Capitalize(ws[k])
  }

  function CaseMarked(ws: seq<string>, camel: bool): string {
    if ws == [] then "" else CaseMarked(ws[..|ws| - 1], camel) + Piece(ws, camel, |ws| - 1)
  }

  lemma {:induction false} CaseMarkedLength(ws: seq<string>, camel: bool)
    ensures |CaseMarked(ws, camel)| == Offset(ws, 0, |ws|)
  {
    var n := |ws| - 1;
    if ws != [] {
      CaseMarkedLength(ws[..n], camel);
      OffsetOfPrefix(ws, ws[..n], 0, n);
    }
  }

  lemma {:induction false} CaseMarkedPrefix(ws: seq<string>, camel: bool, k: nat)
    requires k <= |ws|
    ensures CaseMarked(ws[..k], camel) <= CaseMarked(ws, camel)
  {
    var m := |ws| - 1;
    if k == |ws| {
      assert ws[..k] == ws;
    } else {
      CaseMarkedPrefix(ws[..m], camel, k);
      assert ws[..m][..k] == ws[..k];
    }
  }

  /** The rendering through word `k` ends in the piece of that word. */
  lemma {:induction false} CaseMarkedThrough(ws: seq<string>, camel: bool, k: nat, before: string)
    requires k < |ws| && before == CaseMarked(ws[..k], camel)
    ensures CaseMarked(ws[..k + 1], camel) == before + Piece(ws, camel, k) && |before| == Offset(ws, 0, k)
  {
    assert ws[..k + 1][..k] == ws[..k];
    CaseMarkedLength(ws[..k], camel);
    OffsetOfPrefix(ws, ws[..k], 0, k);
  }

  lemma {:induction false} CaseMarkedAt(ws: seq<string>, camel: bool, k: nat, i: nat)
    requires k < |ws| && i < |ws[k]|
    ensures var s, n := CaseMarked(ws, camel), Offset(ws, 0, k);
      n + |ws[k]| <= |s| && s[n + i] == Piece(ws, camel, k)[i]
  {
    var before := CaseMarked(ws[..k], camel);
    CaseMarkedThrough(ws, camel, k, before);
    CaseMarkedPrefix(ws, camel, k + 1);
    assert (before + Piece(ws, camel, k))[|before| + i] == Piece(ws, camel, k)[i];
  }

  /** The capital of word `k` stands out: it is a letter, next to a lower-case one. */
  predicate StandsOut(ws: seq<string>, camel: bool, k: nat)
    requires 1 <= k < |ws| && ws[k] != "" && ws[k - 1] != ""
  {
    var before := ws[k - 1];
    && IsLower(ws[k][0])
    && (|| (IsLower(before[|before| - 1]) && (|before| >= 2 || (camel && k == 1)))
        || (|ws[k]| >= 2 && IsLower(ws[k][1])))
  }

  lemma {:induction false} PieceChar(ws: seq<string>, camel: bool, k: nat, i: nat)
    requires k < |ws| && IsWord(ws[k]) && i < |ws[k]|
    ensures var p := Piece(ws, camel, k);
      |p| == |ws[k]| && ToLower(p[i]) == ws[k][i] && (i > 0 ==> !IsUpper(p[i]))
  {
    assert !IsUpper(ws[k][i]);
  }

  lemma {:induction false} CharFrom(s: string, n: nat, w: string, i: nat, c: char)
    requires i < |w| && n + |w| <= |s| && s[n + i] == c && ToLower(c) == w[i] && (i > 0 ==> !IsUpper(c))
    ensures CharAt(s, n, w, i)
  {
  }

  lemma {:induction false} CaseMarkedChar(ws: seq<string>, camel: bool, k: nat, i: nat)
    requires k < |ws| && IsWord(ws[k]) && i < |ws[k]|
    ensures CharAt(CaseMarked(ws, camel), Offset(ws, 0, k), ws[k], i)
  {
    PieceChar(ws, camel, k, i);
    CaseMarkedAt(ws, camel, k, i);
    CharFrom(CaseMarked(ws, camel), Offset(ws, 0, k), ws[k], i, Piece(ws, camel, k)[i]);
  }

  lemma {:induction false} CaseMarkedPiece(ws: seq<string>, camel: bool, k: nat)
    requires k < |ws| && IsWord(ws[k])
    ensures WordAt(CaseMarked(ws, camel), ws, 0, k)
  {
    var n := Offset(ws, 0, k);
    forall i | 0 <= i < |ws[k]| ensures CharAt(CaseMarked(ws, camel), n, ws[k], i) {
      CaseMarkedChar(ws, camel, k, i);
    }
    assert CharAt(CaseMarked(ws, camel), n, ws[k], 0);
  }

  lemma {:induction false} CaseMarkedLayout(ws: seq<string>, camel: bool)
    requires AreWords(ws)
    ensures Layout(CaseMarked(ws, camel), ws, 0)
  {
    CaseMarkedLength(ws, camel);
    forall k | 0 <= k < |ws| ensures WordAt(CaseMarked(ws, camel), ws, 0, k) {
      CaseMarkedPiece(ws, camel, k);
    }
  }

  ghost predicate LaidAt(s: string, ws: seq<string>, camel: bool, k: nat, i: nat)
    requires k < |ws| && i < |ws[k]|
  {
    var n := Offset(ws, 0, k);
    n + |ws[k]| <= |s| && s[n + i] == Piece(ws, camel, k)[i]
  }

  /** What the case-marked rendering holds, character by character. */
  ghost predicate Laid(s: string, ws: seq<string>, camel: bool) {
    && |s| == Offset(ws, 0, |ws|)
    && forall k, i :: 0 <= k < |ws| && 0 <= i < |ws[k]| ==> LaidAt(s, ws, camel, k, i)
  }

  lemma {:induction false} CaseMarkedIsLaid(ws: seq<string>, camel: bool)
    ensures Laid(CaseMarked(ws, camel), ws, camel)
  {
    CaseMarkedLength(ws, camel);
    forall k, i | 0 <= k < |ws| && 0 <= i < |ws[k]| ensures LaidAt(CaseMarked(ws, camel), ws, camel, k, i) {
      CaseMarkedAt(ws, camel, k, i);
    }
  }

  /** The character before word `k`. */
  lemma {:induction false} CharBefore(s: string, ws: seq<string>, camel: bool, k: nat, n: nat)
    requires Laid(s, ws, camel) && 1 <= k < |ws| && IsWord(ws[k - 1]) && n == Offset(ws, 0, k)
    ensures var w := ws[k - 1];
      && 0 < n <= |s| && !IsSeparator(s[n - 1])
      && (IsLower(s[n - 1]) <==> IsLower(w[|w| - 1]) && (|w| >= 2 || (camel && k == 1)))
  {
    var w := ws[k - 1];
    var last := |w| - 1;
    assert LaidAt(s, ws, camel, k - 1, last);
    assert n - 1 == Offset(ws, 0, k - 1) + last;
    LastOfPiece(ws, camel, k - 1);
  }

  lemma {:induction false} LastOfPiece(ws: seq<string>, camel: bool, k: nat)
    requires k < |ws| && IsWord(ws[k])
    ensures var w := ws[k]; var c := Piece(ws, camel, k)[|w| - 1];
      && |Piece(ws, camel, k)| == |w| && !IsSeparator(c)
      && (IsLower(c) <==> IsLower(w[|w| - 1]) && (|w| >= 2 || (camel && k == 0)))
  {
    assert !IsSeparator(ws[k][|ws[k]| - 1]);
  }

  lemma {:induction false} CapitalIsNotLower(w: string)
    requires w != ""
    ensures !IsLower(Capitalize(w)[0])
  {
  }

  /** The character after the first one of word `k`, if any; a word of one letter is followed by a capital. */
  lemma {:induction false} CharAfter(s: string, ws: seq<string>, camel: bool, k: nat, n: nat)
    requires 1 <= k < |ws| && ws[k] != "" && (k + 1 < |ws| ==> ws[k + 1] != "")
    requires Laid(s, ws, camel) && n == Offset(ws, 0, k)
    ensures n + 1 < |s| && IsLower(s[n + 1]) <==> |ws[k]| >= 2 && IsLower(ws[k][1])
  {
    if |ws[k]| >= 2 {
      assert LaidAt(s, ws, camel, k, 1);
    } else {
      assert n + 1 == Offset(ws, 0, k + 1);
      if k + 1 < |ws| {
        assert LaidAt(s, ws, camel, k + 1, 0);
        CapitalIsNotLower(ws[k + 1]);
      }
    }
  }

  /** What a capital at `n` needs around it to be seen as the start of a word. */
  lemma {:induction false} CapitalStarts(s: string, n: nat, first: char, next: bool)
    requires 0 < n < |s| && s[n] == ToUpper(first) && !IsUpper(first) && !IsSeparator(s[n - 1])
    requires next <==> n + 1 < |s| && IsLower(s[n + 1])
    ensures StartsWord(s, n) <==> IsLower(first) && (IsLower(s[n - 1]) || next)
  {
  }

  /** A word after the first is seen to start exactly when its capital stands out. */
  lemma {:induction false} LaterWordBegins(s: string, ws: seq<string>, camel: bool, k: nat, n: nat)
    requires 1 <= k < |ws| && IsWord(ws[k]) && IsWord(ws[k - 1]) && (k + 1 < |ws| ==> IsWord(ws[k + 1]))
    requires Laid(s, ws, camel) && n == Offset(ws, 0, k)
    ensures n < |s|
    ensures Begins(s, ws, 0, k) <==> StandsOut(ws, camel, k)
  {
    var w := ws[k];
    assert LaidAt(s, ws, camel, k, 0);
    CharBefore(s, ws, camel, k, n);
    CharAfter(s, ws, camel, k, n);
    assert !IsUpper(w[0]);
    CapitalStarts(s, n, w[0], |w| >= 2 && IsLower(w[1]));
  }

  lemma {:induction false} BeginsWhenStandsOut(ws: seq<string>, camel: bool, k: nat)
    requires AreWords(ws) && k < |ws|
    ensures Offset(ws, 0, k) < |CaseMarked(ws, camel)|
    ensures !IsSeparator(CaseMarked(ws, camel)[Offset(ws, 0, k)])
    ensures Begins(CaseMarked(ws, camel), ws, 0, k) <==> k == 0 || StandsOut(ws, camel, k)
  {
    var s := CaseMarked(ws, camel);
    CaseMarkedIsLaid(ws, camel);
    assert LaidAt(s, ws, camel, k, 0);
    assert !IsSeparator(ws[k][0]);
    if k > 0 {
      LaterWordBegins(s, ws, camel, k, Offset(ws, 0, k));
    }
  }

  lemma {:induction false} AbsorbGrows(ws: seq<string>, c: char, starts: bool, j: nat)
    requires j < |ws|
    ensures j < |Absorb(ws, c, starts)| && |ws[j]| <= |Absorb(ws, c, starts)[j]|
  {
  }

  /** Words only grow at the end of the list. */
  lemma {:induction false} SplitGrows(s: string, n: nat, m: nat, j: nat)
    requires n <= m <= |s| && j < |Split(s, n)|
    ensures j < |Split(s, m)| && |Split(s, n)[j]| <= |Split(s, m)[j]|
  {
    if n < m {
      SplitGrows(s, n, m - 1, j);
      AbsorbGrows(Split(s, m - 1), s[m - 1], StartsWord(s, m - 1), j);
    }
  }

  /** A character that starts no word lengthens the last one. */
  lemma {:induction false} SplitJoinsWord(s: string, n: nat, j: nat)
    requires n < |s| && !IsSeparator(s[n]) && !StartsWord(s, n) && |Split(s, n)| == j + 1
    ensures |Split(s, n + 1)| == j + 1 && |Split(s, n + 1)[j]| == |Split(s, n)[j]| + 1
  {
  }

  lemma {:induction false} SplitOvershoots(s: string, n: nat, ws: seq<string>, k: nat)
    requires n < |s| && !IsSeparator(s[n]) && !StartsWord(s, n) && 1 <= k <= |ws| && Split(s, n) == ws[..k]
    ensures WordsOf(s) != ws
  {
    SplitJoinsWord(s, n, k - 1);
    SplitGrows(s, n + 1, |s|, k - 1);
    assert ws[..k][k - 1] == ws[k - 1];
  }

  lemma {:induction false} SplitUntil(ws: seq<string>, camel: bool, k: nat)
    requires AreWords(ws) && 1 <= k < |ws| && forall j :: 1 <= j < k ==> StandsOut(ws, camel, j)
    ensures Offset(ws, 0, k) <= |CaseMarked(ws, camel)|
    ensures Split(CaseMarked(ws, camel), Offset(ws, 0, k)) == ws[..k]
  {
    CaseMarkedLayout(ws, camel);
    forall j | 0 <= j < k ensures Begins(CaseMarked(ws, camel), ws, 0, j) {
      BeginsWhenStandsOut(ws, camel, j);
    }
    SplitLayout(CaseMarked(ws, camel), ws, 0, k - 1);
  }

  /** If word `k` is the first that does not stand out, its first character joins word `k - 1`. */
  lemma {:induction false} SplitMisses(ws: seq<string>, camel: bool, k: nat)
    requires AreWords(ws) && 1 <= k < |ws| && !StandsOut(ws, camel, k)
    requires forall j :: 1 <= j < k ==> StandsOut(ws, camel, j)
    ensures WordsOf(CaseMarked(ws, camel)) != ws
  {
    SplitUntil(ws, camel, k);
    BeginsWhenStandsOut(ws, camel, k);
    SplitOvershoots(CaseMarked(ws, camel), Offset(ws, 0, k), ws, k);
  }

  ghost predicate AllStandOut(ws: seq<string>, camel: bool)
    requires AreWords(ws)
  {
    forall k :: 1 <= k < |ws| ==> StandsOut(ws, camel, k)
  }

  lemma {:induction false} FirstHidden(ws: seq<string>, camel: bool) returns (k: nat)
    requires AreWords(ws) && !AllStandOut(ws, camel)
    ensures 1 <= k < |ws| && !StandsOut(ws, camel, k)
    ensures forall j :: 1 <= j < k ==> StandsOut(ws, camel, j)
  {
    k := 1;
    while k < |ws| && StandsOut(ws, camel, k)
      invariant 1 <= k && forall j :: 1 <= j < k && j < |ws| ==> StandsOut(ws, camel, j)
    {
      k := k + 1;
    }
  }

  /** Pascal and camel case split back into the same words exactly when every capital stands out. */
  lemma {:induction false} CaseMarkedRoundTrip(ws: seq<string>, camel: bool)
    requires AreWords(ws)
    ensures WordsOf(CaseMarked(ws, camel)) == ws <==> AllStandOut(ws, camel)
  {
    if AllStandOut(ws, camel) {
      CaseMarkedLayout(ws, camel);
      forall k | 0 <= k < |ws| ensures Begins(CaseMarked(ws, camel), ws, 0, k) {
        BeginsWhenStandsOut(ws, camel, k);
      }
      LayoutRoundTrip(CaseMarked(ws, camel), ws, 0);
    } else {
      var k := FirstHidden(ws, camel);
      SplitMisses(ws, camel, k);
    }
  }

  /** In particular whenever every word starts with two lower-case letters. */
  lemma {:induction false} TwoLettersSuffice(ws: seq<string>, camel: bool)
    requires AreWords(ws)
    requires forall k :: 0 <= k < |ws| ==> |ws[k]| >= 2 && IsLower(ws[k][0]) && IsLower(ws[k][1])
    ensures WordsOf(CaseMarked(ws, camel)) == ws
  {
    CaseMarkedRoundTrip(ws, camel);
  }

  // ---------- Styles ----------

  datatype Style = Kebab | Snake | ScreamingSnake | Lower | Upper | Camel | Pascal | Verbatim

  /** `rename`; an unknown style is kebab case. */
  function Rename(name: string, style: Style): string {
    var ws := WordsOf(name);
    match style
    case Kebab => Joined(ws, '-')
    case Snake => Joined(ws, '_')
    case ScreamingSnake => Uppercase(Joined(ws, '_'))
    case Lower => Lowercase(Concat(ws))
    case Upper => Uppercase(Concat(ws))
    case Camel => CaseMarked(ws, true)
    case Pascal => CaseMarked(ws, false)
    case Verbatim => name
  }

  lemma {:induction false} ConcatIsWord(ws: seq<string>)
    requires AreWords(ws)
    ensures ws != [] ==> IsWord(Concat(ws))
    ensures |ws| == 1 ==> Concat(ws) == ws[0]
  {
    if ws != [] {
      var n := |ws| - 1;
      ConcatIsWord(ws[..n]);
      assert IsWord(ws[n]);
      if n == 0 {
        assert Concat(ws[..0]) + ws[0] == ws[0];
      }
    }
  }

  /** A text without capitals, or of nothing but capitals, is one word. */
  lemma {:induction false} OneWord(w: string, s: string)
    requires IsWord(w) && Lowercase(s) == w && forall i :: 0 <= i < |s| ==> !Cut(s, i)
    ensures WordsOf(s) == [w]
  {
    assert Joined([w], '-') == w;
    JoinedLayout([w], '-', s);
  }

  lemma {:induction false} CasesOfWord(w: string)
    requires IsWord(w)
    ensures Lowercase(w) == w && Lowercase(Uppercase(w)) == w && Lowercase(Lowercase(w)) == w
    ensures forall i :: 0 <= i < |w| ==> !IsUpper(Lowercase(w)[i]) && !IsLower(Uppercase(w)[i])
  {
    forall i | 0 <= i < |w| ensures ToLower(w[i]) == w[i] && ToLower(ToUpper(w[i])) == w[i] {
      assert !IsUpper(w[i]);
    }
  }

  /** Lower and upper case without separators run all words together. */
  lemma {:induction false} RunTogether(ws: seq<string>)
    requires AreWords(ws)
    ensures WordsOf(Lowercase(Concat(ws))) == (if ws == [] then [] else [Concat(ws)])
    ensures WordsOf(Uppercase(Concat(ws))) == (if ws == [] then [] else [Concat(ws)])
  {
    if ws == [] {
      assert Lowercase("") == "" && Uppercase("") == "";
    } else {
      var w := Concat(ws);
      ConcatIsWord(ws);
      CasesOfWord(w);
      OneWord(w, Lowercase(w));
      OneWord(w, Uppercase(w));
    }
  }

  /** The separated styles and the verbatim one keep the words of every name; Pascal and camel case
      keep them exactly when every capital stands out, lower and upper case exactly when there is
      at most one. */
  lemma {:induction false} RenameKeepsWords(name: string)
    ensures var ws := WordsOf(name);
      && WordsOf(Rename(name, Kebab)) == ws && WordsOf(Rename(name, Snake)) == ws
      && WordsOf(Rename(name, ScreamingSnake)) == ws && WordsOf(Rename(name, Verbatim)) == ws
      && AreWords(ws)
      && (WordsOf(Rename(name, Pascal)) == ws <==> AllStandOut(ws, false))
      && (WordsOf(Rename(name, Camel)) == ws <==> AllStandOut(ws, true))
      && (WordsOf(Rename(name, Lower)) == ws <==> |ws| <= 1)
      && (WordsOf(Rename(name, Upper)) == ws <==> |ws| <= 1)
  {
    var ws := WordsOf(name);
    WordsKeepLetters(name);
    SeparatedRoundTrip(ws, '-');
    SeparatedRoundTrip(ws, '_');
    CaseMarkedRoundTrip(ws, false);
    CaseMarkedRoundTrip(ws, true);
    RunTogether(ws);
    ConcatIsWord(ws);
  }

  /** The letter a style writes for letter `i` of word `k`. */
  function Cased(style: Style, k: nat, i: nat, c: char): char {
    match style
    case ScreamingSnake => ToUpper(c)
    case Upper => ToUpper(c)
    case Pascal => if i == 0 then ToUpper(c) else c
    case Camel => if k > 0 && i == 0 then ToUpper(c) else c
    case _ => c
  }

  function SeparatorOf(style: Style): string {
    match style
    case Kebab => "-"
    case Snake => "_"
    case ScreamingSnake => "_"
    case _ => ""
  }

  /** `s` writes the words in order, each letter in the case of the style, the style's separator
      between two words, and nothing else. */
  ghost predicate Writes(s: string, ws: seq<string>, style: Style) {
    var gap := |SeparatorOf(style)|;
    && |s| == (if ws == [] then 0 else Offset(ws, gap, |ws|) - gap)
    && forall k :: 0 <= k < |ws| ==> WritesWord(s, ws, style, k)
  }

  ghost predicate WritesWord(s: string, ws: seq<string>, style: Style, k: nat)
    requires k < |ws|
  {
    var sep := SeparatorOf(style);
    var n := Offset(ws, |sep|, k);
    && n + |ws[k]| <= |s|
    && (k > 0 ==> |sep| <= n && s[n - |sep|..n] == sep)
    && forall i :: 0 <= i < |ws[k]| ==> s[n + i] == Cased(style, k, i, ws[k][i])
  }

  lemma {:induction false} ConcatPrefix(ws: seq<string>, k: nat)
    requires k <= |ws|
    ensures Offset(ws, 0, k) <= |Concat(ws)| && |Concat(ws)| == Offset(ws, 0, |ws|)
    ensures Concat(ws)[..Offset(ws, 0, k)] == Concat(ws[..k])
    decreases |ws|
  {
    if k == |ws| {
      assert ws[..k] == ws;
      if ws != [] {
        var n := |ws| - 1;
        ConcatPrefix(ws[..n], n);
        OffsetOfPrefix(ws, ws[..n], 0, n);
      }
    } else {
      var n := |ws| - 1;
      ConcatPrefix(ws[..n], k);
      OffsetOfPrefix(ws, ws[..n], 0, k);
      OffsetOfPrefix(ws, ws[..n], 0, n);
      assert ws[..n][..k] == ws[..k];
    }
  }

  lemma {:induction false} ConcatAt(ws: seq<string>, k: nat, i: nat)
    requires k < |ws| && i < |ws[k]|
    ensures var s, n := Concat(ws), Offset(ws, 0, k); n + |ws[k]| <= |s| && s[n + i] == ws[k][i]
  {
    ConcatPrefix(ws, k);
    ConcatPrefix(ws, k + 1);
    assert ws[..k + 1][..k] == ws[..k];
    var s, n := Concat(ws), Offset(ws, 0, k);
    assert s[..n + |ws[k]|] == s[..n] + ws[k];
    assert s[n + i] == s[..n + |ws[k]|][n + i];
  }

  /** A separated style: the joined words, in capitals or not. */
  lemma {:induction false} SeparatedWrites(ws: seq<string>, style: Style, sep: char, s: string)
    requires IsSeparator(sep) && SeparatorOf(style) == [sep] && style in {Kebab, Snake, ScreamingSnake}
    requires s == if style == ScreamingSnake then Uppercase(Joined(ws, sep)) else Joined(ws, sep)
    ensures Writes(s, ws, style)
  {
    JoinedLength(ws, sep);
    var text := Joined(ws, sep);
    forall k | 0 <= k < |ws| ensures WritesWord(s, ws, style, k) {
      JoinedAt(ws, sep, k);
      var n := Offset(ws, 1, k);
      forall i | 0 <= i < |ws[k]| ensures s[n + i] == Cased(style, k, i, ws[k][i]) {
        assert text[n..n + |ws[k]|][i] == text[n + i];
      }
    }
  }

  lemma {:induction false} CaseMarkedWrites(ws: seq<string>, style: Style)
    requires AreWords(ws) && style in {Pascal, Camel}
    ensures Writes(CaseMarked(ws, style == Camel), ws, style)
  {
    var camel := style == Camel;
    var s := CaseMarked(ws, camel);
    CaseMarkedIsLaid(ws, camel);
    forall k | 0 <= k < |ws| ensures WritesWord(s, ws, style, k) {
      LaidWord(s, ws, style, k);
    }
  }

  lemma {:induction false} LaidWord(s: string, ws: seq<string>, style: Style, k: nat)
    requires style in {Pascal, Camel} && Laid(s, ws, style == Camel) && k < |ws| && ws[k] != ""
    ensures WritesWord(s, ws, style, k)
  {
    var n := Offset(ws, 0, k);
    assert LaidAt(s, ws, style == Camel, k, 0);
    forall i | 0 <= i < |ws[k]| ensures s[n + i] == Cased(style, k, i, ws[k][i]) {
      assert LaidAt(s, ws, style == Camel, k, i);
    }
  }

  lemma {:induction false} RunTogetherWrites(ws: seq<string>, style: Style, s: string)
    requires AreWords(ws) && style in {Lower, Upper}
    requires s == if style == Upper then Uppercase(Concat(ws)) else Lowercase(Concat(ws))
    ensures Writes(s, ws, style)
  {
    ConcatPrefix(ws, |ws|);
    forall k | 0 <= k < |ws| ensures WritesWord(s, ws, style, k) {
      ConcatAt(ws, k, 0);
      var n := Offset(ws, 0, k);
      forall i | 0 <= i < |ws[k]| ensures s[n + i] == Cased(style, k, i, ws[k][i]) {
        ConcatAt(ws, k, i);
        assert IsWord(ws[k]) && !IsUpper(ws[k][i]);
      }
    }
  }

  /** What every style writes for a name, letter by letter and separator by separator. */
  lemma {:induction false} RenameWrites(name: string, style: Style)
    ensures if style == Verbatim then Rename(name, style) == name
            else Writes(Rename(name, style), WordsOf(name), style)
  {
    var ws := WordsOf(name);
    WordsKeepLetters(name);
    match style
    case Kebab => SeparatedWrites(ws, style, '-', Rename(name, style));
    case Snake => SeparatedWrites(ws, style, '_', Rename(name, style));
    case ScreamingSnake => SeparatedWrites(ws, style, '_', Rename(name, style));
    case Lower => RunTogetherWrites(ws, style, Rename(name, style));
    case Upper => RunTogetherWrites(ws, style, Rename(name, style));
    case Camel => CaseMarkedWrites(ws, style);
    case Pascal => CaseMarkedWrites(ws, style);
    case Verbatim =>
  }

  /** `a_b` becomes `AB` in Pascal case, which is the one word `ab`. */
  lemma {:induction false} PascalMerges()
    ensures WordsOf("a_b") == ["a", "b"] && Rename("a_b", Pascal) == "AB" && WordsOf("AB") == ["ab"]
  {
    TwoWords("a_b", 'b', ["a", "b"]);
    TwoPieces(["a", "b"], false, Rename("a_b", Pascal));
    OneWord("ab", "AB");
  }

  /** `a_1` becomes `a1` in camel case, which is one word. */
  lemma {:induction false} CamelMerges()
    ensures WordsOf("a_1") == ["a", "1"] && Rename("a_1", Camel) == "a1" && WordsOf("a1") == ["a1"]
  {
    TwoWords("a_1", '1', ["a", "1"]);
    TwoPieces(["a", "1"], true, Rename("a_1", Camel));
    OneWord("a1", "a1");
  }

  /** Two words of one letter each. */
  lemma {:induction false} TwoPieces(ws: seq<string>, camel: bool, s: string)
    requires |ws| == 2 && |ws[0]| == 1 && |ws[1]| == 1 && s == CaseMarked(ws, camel)
    ensures |s| == 2 && s[0] == (if camel then ws[0][0] else ToUpper(ws[0][0])) && s[1] == ToUpper(ws[1][0])
  {
    CaseMarkedIsLaid(ws, camel);
    assert LaidAt(s, ws, camel, 0, 0) && LaidAt(s, ws, camel, 1, 0);
    assert Offset(ws, 0, 1) == 1;
  }

  lemma {:induction false} TwoWords(name: string, c: char, ws: seq<string>)
    requires name == ['a', '_', c] && !IsSeparator(c) && !IsUpper(c) && ws == ["a", [c]]
    ensures WordsOf(name) == ws
  {
    assert Split(name, 1) == ["a"] && Split(name, 2) == ["a"];
  }
}
