/**
 * The attention playground page (client/src/pages/AttentionPlayground.tsx):
 * the naive tokenizer, the per-head weight rows built from `Math.random()`
 * draws and normalised by their sum, and the guard on the "visualize" action.
 *
 * The draws are injected: `draws[h][j]` is the value `Math.random()` returned
 * for head `h`, token `j`. A row whose draws sum to zero divides 0 by 0,
 * which JavaScript evaluates to NaN; `Weight` keeps that case visible.
 */
module AttentionPlayground {
  import opened Text
  import opened Wrappers

  /** The characters the regular expression `/([.,!?;:])/g` isolates */
  predicate IsPunct(c: char) {
    c == '.' || c == ',' || c == '!' || c == '?' || c == ';' || c == ':'
  }

  predicate NoPunct(s: string) {
    forall i :: 0 <= i < |s| ==> !IsPunct(s[i])
  }

  /** A token the tokenizer can produce: non-empty, no whitespace, and either one punctuation character or none at all */
  predicate GoodToken(t: string) {
    t != [] && NoSpace(t) && ((|t| == 1 && IsPunct(t[0])) || NoPunct(t))
  }

  // ---------------------------------------------------------------------
  // Tokenizer: text.replace(/([.,!?;:])/g, " $1 ").split(/\s+/).filter(t => t.length > 0)
  // ---------------------------------------------------------------------

  /** The replacement for one character of the input */
  function Chunk(c: char): string {
    if IsPunct(c) then [' ', c, ' '] else [c]
  }

  /** `text.replace(/([.,!?;:])/g, " $1 ")` */
  function Pad(s: string): string {
    if s == [] then [] else Chunk(s[0]) + Pad(s[1..])
  }

  /**
   * `split(/\s+/)` of `s`, where the first piece is continued from `cur`:
   * the pieces between maximal whitespace runs, including the empty pieces
   * before a leading run and after a trailing one.
   */
  function Pieces(s: string, cur: string): seq<string>
    decreases |s|
  {
    if s == [] then [cur]
    else if IsSpace(s[0]) then [cur] + Pieces(TrimStart(s[1..]), [])
    else Pieces(s[1..], cur + [s[0]])
  }

  /** `filter(token => token.length > 0)` */
  function NonEmpty(ps: seq<string>): (r: seq<string>)
    ensures forall t :: t in r <==> t in ps && t != []
  {
    if ps == [] then []
    else (if ps[0] == [] then [] else [ps[0]]) + NonEmpty(ps[1..])
  }

  /** The tokens of the playground input, as `calculateAttention` computes them */
  function Tokenize(text: string): (tokens: seq<string>)
    ensures forall t :: t in tokens ==> GoodToken(t)
    ensures Concat(tokens) == RemoveSpace(text)
  {
    TokensAsWords(text);
    WordsGood(text);
    WordsConcat(Pad(text), []);
    RemoveSpacePad(text);
    NonEmpty(Pieces(Pad(text), []))
  }

  // ---------------------------------------------------------------------
  // Reference splitter and its relation to the literal pipeline
  // ---------------------------------------------------------------------

  /** Emits the token under construction, if any */
  function Flush(cur: string): seq<string> {
    if cur == [] then [] else [cur]
  }

  /** A character-by-character splitter: whitespace ends the token under construction */
  function Words(s: string, cur: string): seq<string> {
    if s == [] then Flush(cur)
    else if IsSpace(s[0]) then Flush(cur) + Words(s[1..], [])
    else Words(s[1..], cur + [s[0]])
  }

  function Concat(ts: seq<string>): string {
    if ts == [] then [] else ts[0] + Concat(ts[1..])
  }

  /** `s` with every whitespace character removed */
  function RemoveSpace(s: string): string {
    if s == [] then [] else (if IsSpace(s[0]) then [] else [s[0]]) + RemoveSpace(s[1..])
  }

  lemma {:induction false} NonEmptyAppend(a: seq<string>, b: seq<string>)
    ensures NonEmpty(a + b) == NonEmpty(a) + NonEmpty(b)
    decreases |a|
  {
    if a == [] {
      assert a + b == b;
    } else {
      assert (a + b)[0] == a[0];
      assert (a + b)[1..] == a[1..] + b;
      NonEmptyAppend(a[1..], b);
      var h := if a[0] == [] then [] else [a[0]];
      assert NonEmpty(a + b) == h + (NonEmpty(a[1..]) + NonEmpty(b));
    }
  }

  /** Leading whitespace produces no token. */
  lemma {:induction false} WordsSkipSpaces(s: string)
    ensures Words(s, []) == Words(TrimStart(s), [])
    decreases |s|
  {
    if |s| > 0 && IsSpace(s[0]) {
      WordsSkipSpaces(s[1..]);
    }
  }

  /** Dropping the empty pieces of `split(/\s+/)` gives the character-by-character splitter. */
  lemma {:induction false} PiecesAsWords(s: string, cur: string)
    ensures NonEmpty(Pieces(s, cur)) == Words(s, cur)
    decreases |s|
  {
    if s == [] {
    } else if IsSpace(s[0]) {
      var t := TrimStart(s[1..]);
      NonEmptyAppend([cur], Pieces(t, []));
      PiecesAsWords(t, []);
      WordsSkipSpaces(s[1..]);
    } else {
      PiecesAsWords(s[1..], cur + [s[0]]);
    }
  }

  lemma TokensAsWords(text: string)
    ensures NonEmpty(Pieces(Pad(text), [])) == Words(Pad(text), [])
  {
    PiecesAsWords(Pad(text), []);
  }

  // ---------------------------------------------------------------------
  // What the tokens look like
  // ---------------------------------------------------------------------

  lemma {:induction false} ConcatAppend(a: seq<string>, b: seq<string>)
    ensures Concat(a + b) == Concat(a) + Concat(b)
    decreases |a|
  {
    if a == [] {
      assert a + b == b;
    } else {
      assert (a + b)[0] == a[0];
      assert (a + b)[1..] == a[1..] + b;
      ConcatAppend(a[1..], b);
      assert Concat(a + b) == a[0] + (Concat(a[1..]) + Concat(b));
    }
  }

  /** The tokens, glued together, are the input with the whitespace removed. */
  lemma {:induction false} WordsConcat(s: string, cur: string)
    ensures Concat(Words(s, cur)) == cur + RemoveSpace(s)
    decreases |s|
  {
    if s == [] {
    } else if IsSpace(s[0]) {
      ConcatAppend(Flush(cur), Words(s[1..], []));
      WordsConcat(s[1..], []);
    } else {
      WordsConcat(s[1..], cur + [s[0]]);
    }
  }

  lemma {:induction false} RemoveSpaceAppend(a: string, b: string)
    ensures RemoveSpace(a + b) == RemoveSpace(a) + RemoveSpace(b)
    decreases |a|
  {
    if a == [] {
      assert a + b == b;
    } else {
      assert (a + b)[0] == a[0];
      assert (a + b)[1..] == a[1..] + b;
      RemoveSpaceAppend(a[1..], b);
      var h := if IsSpace(a[0]) then [] else [a[0]];
      assert RemoveSpace(a + b) == h + (RemoveSpace(a[1..]) + RemoveSpace(b));
    }
  }

  /** Padding adds only spaces. */
  lemma {:induction false} RemoveSpacePad(s: string)
    ensures RemoveSpace(Pad(s)) == RemoveSpace(s)
    decreases |s|
  {
    if s != [] {
      assert Pad(s) == Chunk(s[0]) + Pad(s[1..]);
      RemoveSpaceAppend(Chunk(s[0]), Pad(s[1..]));
      RemoveSpaceAppend([s[0]], s[1..]);
      assert [s[0]] + s[1..] == s;
      RemoveSpacePad(s[1..]);
      assert RemoveSpace(Chunk(s[0])) == RemoveSpace([s[0]]) by {
        var c := s[0];
        if IsPunct(c) {
          assert !IsSpace(c) && IsSpace(' ');
          assert RemoveSpace([' ']) == [];
          assert RemoveSpace([c, ' ']) == [c] + RemoveSpace([' ']);
          assert RemoveSpace([' ', c, ' ']) == RemoveSpace([c, ' ']);
          assert RemoveSpace([c]) == [c] + RemoveSpace([]);
        }
      }
    }
  }

  /** Every punctuation character is strictly inside `x`, with whitespace on both sides. */
  predicate Isolated(x: string) {
    forall i :: 0 <= i < |x| && IsPunct(x[i]) ==> 0 < i < |x| - 1 && IsSpace(x[i - 1]) && IsSpace(x[i + 1])
  }

  /** Every punctuation character of `x` has whitespace or an end of `x` on each side. */
  predicate LooselyIsolated(x: string) {
    forall i :: 0 <= i < |x| && IsPunct(x[i]) ==> (i == 0 || IsSpace(x[i - 1])) && (i == |x| - 1 || IsSpace(x[i + 1]))
  }

  lemma {:induction false} PadIsolated(s: string)
    ensures Isolated(Pad(s))
    decreases |s|
  {
    if s != [] {
      PadIsolated(s[1..]);
      var a, b := Chunk(s[0]), Pad(s[1..]);
      assert Isolated(a);
      forall i | 0 <= i < |a + b| && IsPunct((a + b)[i])
        ensures 0 < i < |a + b| - 1 && IsSpace((a + b)[i - 1]) && IsSpace((a + b)[i + 1])
      {
        if i < |a| {
          assert (a + b)[i] == a[i];
        } else {
          assert (a + b)[i] == b[i - |a|];
        }
      }
    }
  }

  lemma PunctNotSpace(c: char)
    requires IsPunct(c)
    ensures !IsSpace(c)
  {
  }

  /** The token under construction is compatible with what follows it */
  predicate CurOk(cur: string, x: string) {
    || cur == []
    || (|cur| == 1 && IsPunct(cur[0]) && (x == [] || IsSpace(x[0])))
    || (NoPunct(cur) && (x == [] || !IsPunct(x[0])))
  }

  lemma {:induction false} WordsIsolated(x: string, cur: string)
    requires LooselyIsolated(x) && NoSpace(cur) && CurOk(cur, x)
    ensures forall t :: t in Words(x, cur) ==> GoodToken(t)
    decreases |x|
  {
    if x == [] {
    } else if IsSpace(x[0]) {
      var tail := x[1..];
      assert LooselyIsolated(tail) by {
        forall i | 0 <= i < |tail| && IsPunct(tail[i])
          ensures (i == 0 || IsSpace(tail[i - 1])) && (i == |tail| - 1 || IsSpace(tail[i + 1]))
        {
          assert tail[i] == x[i + 1];
        }
      }
      WordsIsolated(tail, []);
    } else {
      var tail := x[1..];
      assert LooselyIsolated(tail) by {
        forall i | 0 <= i < |tail| && IsPunct(tail[i])
          ensures (i == 0 || IsSpace(tail[i - 1])) && (i == |tail| - 1 || IsSpace(tail[i + 1]))
        {
          assert tail[i] == x[i + 1];
        }
      }
      var cur' := cur + [x[0]];
      assert NoSpace(cur');
      WordsIsolated(tail, cur');
    }
  }

  lemma WordsGood(s: string)
    ensures forall t :: t in Words(Pad(s), []) ==> GoodToken(t)
  {
    PadIsolated(s);
    WordsIsolated(Pad(s), []);
  }

  // ---------------------------------------------------------------------
  // Round trip: tokens joined by single spaces tokenize back to themselves
  // ---------------------------------------------------------------------

  /** `tokens.join(" ")` */
  function Join(ts: seq<string>): string {
    if ts == [] then [] else if |ts| == 1 then ts[0] else ts[0] + [' '] + Join(ts[1..])
  }

  lemma {:induction false} PadAppend(a: string, b: string)
    ensures Pad(a + b) == Pad(a) + Pad(b)
    decreases |a|
  {
    if a == [] {
      assert a + b == b;
    } else {
      assert (a + b)[0] == a[0];
      assert (a + b)[1..] == a[1..] + b;
      PadAppend(a[1..], b);
      assert Pad(a + b) == Chunk(a[0]) + (Pad(a[1..]) + Pad(b));
    }
  }

  lemma {:induction false} PadNoPunct(s: string)
    requires NoPunct(s)
    ensures Pad(s) == s
    decreases |s|
  {
    if s != [] {
      PadNoPunct(s[1..]);
    }
  }

  /** A whitespace-free run extends the token under construction. */
  lemma {:induction false} WordsRun(w: string, y: string, cur: string)
    requires NoSpace(w)
    ensures Words(w + y, cur) == Words(y, cur + w)
    decreases |w|
  {
    if w == [] {
      assert w + y == y && cur + w == cur;
    } else {
      assert (w + y)[0] == w[0];
      assert (w + y)[1..] == w[1..] + y;
      assert cur + [w[0]] + w[1..] == cur + w;
      WordsRun(w[1..], y, cur + [w[0]]);
    }
  }

  /** A trailing space produces nothing new. */
  lemma {:induction false} WordsTrailingSpace(x: string, cur: string)
    ensures Words(x + [' '], cur) == Words(x, cur)
    decreases |x|
  {
    if x == [] {
      assert Words([' '], cur) == Flush(cur) + Words([], []);
    } else {
      assert (x + [' '])[1..] == x[1..] + [' '];
      if IsSpace(x[0]) {
        WordsTrailingSpace(x[1..], []);
      } else {
        WordsTrailingSpace(x[1..], cur + [x[0]]);
      }
    }
  }

  /** Text that ends in whitespace splits independently of what follows. */
  lemma {:induction false} WordsSplit(a: string, b: string, cur: string)
    requires a != [] && IsSpace(a[|a| - 1])
    ensures Words(a + b, cur) == Words(a, cur) + Words(b, [])
    decreases |a|
  {
    assert (a + b)[1..] == a[1..] + b;
    if |a| == 1 {
      assert Words(a, cur) == Flush(cur) + Words([], []);
    } else if IsSpace(a[0]) {
      WordsSplit(a[1..], b, []);
    } else {
      WordsSplit(a[1..], b, cur + [a[0]]);
    }
  }

  lemma WordsPadToken(t: string)
    requires GoodToken(t)
    ensures Words(Pad(t), []) == [t]
  {
    if |t| == 1 && IsPunct(t[0]) {
      var p := t[0];
      assert Pad(t) == [' ', p, ' '] + Pad([]);
      assert Pad(t) == [' ', p, ' '];
      assert [' ', p, ' '][1..] == [p, ' '];
      assert Words([' ', p, ' '], []) == Words([p, ' '], []);
      assert [p, ' '][1..] == [' '];
      assert [] + [p] == t;
      assert Words([p, ' '], []) == Words([' '], t);
      assert Words([' '], t) == Flush(t) + Words([], []);
    } else {
      PadNoPunct(t);
      WordsRun(t, [], []);
      assert t + [] == t && [] + t == t;
    }
  }

  /** Tokens the tokenizer can produce, joined by single spaces, tokenize back to the same tokens. */
  lemma {:induction false} TokenizeJoin(ts: seq<string>)
    requires forall k :: 0 <= k < |ts| ==> GoodToken(ts[k])
    ensures Tokenize(Join(ts)) == ts
    decreases |ts|
  {
    TokensAsWords(Join(ts));
    if ts == [] {
    } else if |ts| == 1 {
      WordsPadToken(ts[0]);
    } else {
      var a := Pad(ts[0]) + [' '];
      var b := Pad(Join(ts[1..]));
      PadAppend(ts[0] + [' '], Join(ts[1..]));
      PadAppend(ts[0], [' ']);
      assert Pad([' ']) == [' '];
      assert Pad(Join(ts)) == a + b;
      WordsSplit(a, b, []);
      WordsTrailingSpace(Pad(ts[0]), []);
      WordsPadToken(ts[0]);
      TokenizeJoin(ts[1..]);
      TokensAsWords(Join(ts[1..]));
    }
  }

  /** A text with a non-whitespace character yields at least one token. */
  lemma NonBlankHasToken(text: string)
    requires Trim(text) != []
    ensures |Tokenize(text)| >= 1
  {
    TrimEmptyIffAllSpace(text);
    var i :| 0 <= i < |text| && !IsSpace(text[i]);
    RemoveSpaceHas(text, i);
  }

  lemma {:induction false} RemoveSpaceHas(s: string, i: int)
    requires 0 <= i < |s| && !IsSpace(s[i])
    ensures RemoveSpace(s) != []
    decreases |s|
  {
    if i > 0 && IsSpace(s[0]) {
      RemoveSpaceHas(s[1..], i - 1);
    }
  }

  /** The words of the page's initial sentence, without its full stop */
  const DefaultWords: seq<string> := ["The", "quick", "brown", "fox", "jumps", "over", "the", "lazy", "dog"]

  /**
   * The page's initial sentence, "The quick brown fox jumps over the lazy dog.",
   * written as its words joined by single spaces and followed by the full stop.
   */
  const DefaultText: string := Join(DefaultWords) + "."

  lemma {:induction false} JoinSplit(ws: seq<string>, k: nat)
    requires 0 < k < |ws|
    ensures Join(ws) == Join(ws[..k]) + [' '] + Join(ws[k..])
    decreases k
  {
    if k > 1 {
      assert ws[1..][..k - 1] == ws[1..k];
      assert ws[1..][k - 1..] == ws[k..];
      JoinSplit(ws[1..], k - 1);
      assert ws[..k][1..] == ws[1..k];
    } else {
      assert ws[..1] == [ws[0]];
    }
  }

  lemma JoinTwo(a: string, b: string)
    ensures Join([a, b]) == a + " " + b
  {
    assert [a, b][1..] == [b];
  }

  lemma JoinMore(w: string, ws: seq<string>, tail: string)
    requires ws != [] && Join(ws) == tail
    ensures Join([w] + ws) == w + " " + tail
  {
    assert ([w] + ws)[1..] == ws;
  }

  // The sentence is spelled out a few words at a time: comparing long literals
  // in one step is far more expensive than comparing short ones.

  lemma HeadTwo() ensures Join(["brown", "fox"]) == "brown fox" {
    JoinTwo("brown", "fox");
  }

  lemma HeadThree() ensures Join(["quick", "brown", "fox"]) == "quick brown fox" {
    HeadTwo();
    JoinMore("quick", ["brown", "fox"], "brown fox");
    assert ["quick"] + ["brown", "fox"] == ["quick", "brown", "fox"];
  }

  lemma HeadFour() ensures Join(["The", "quick", "brown", "fox"]) == "The quick brown fox" {
    HeadThree();
    JoinMore("The", ["quick", "brown", "fox"], "quick brown fox");
    assert ["The"] + ["quick", "brown", "fox"] == ["The", "quick", "brown", "fox"];
  }

  lemma TailTwo() ensures Join(["lazy", "dog"]) == "lazy dog" {
    JoinTwo("lazy", "dog");
  }

  lemma TailThree() ensures Join(["the", "lazy", "dog"]) == "the lazy dog" {
    TailTwo();
    JoinMore("the", ["lazy", "dog"], "lazy dog");
    assert ["the"] + ["lazy", "dog"] == ["the", "lazy", "dog"];
  }

  lemma TailFour() ensures Join(["over", "the", "lazy", "dog"]) == "over the lazy dog" {
    TailThree();
    JoinMore("over", ["the", "lazy", "dog"], "the lazy dog");
    assert ["over"] + ["the", "lazy", "dog"] == ["over", "the", "lazy", "dog"];
  }

  lemma TailFive() ensures Join(["jumps", "over", "the", "lazy", "dog"]) + "." == "jumps over the lazy dog." {
    TailFour();
    JoinMore("jumps", ["over", "the", "lazy", "dog"], "over the lazy dog");
    assert ["jumps"] + ["over", "the", "lazy", "dog"] == ["jumps", "over", "the", "lazy", "dog"];
    assert "jumps" + " " + "over the lazy dog" + "." == "jumps over the lazy dog.";
  }

  lemma SentenceHalves()
    ensures "The quick brown fox" + " " + "jumps over the lazy dog." == "The quick brown fox jumps over the lazy dog."
  {
  }

  /** The joined words and full stop spell out the sentence exactly as the page's source writes it. */
  lemma DefaultTextLiteral()
    ensures DefaultText == "The quick brown fox jumps over the lazy dog."
  {
    var ws := DefaultWords;
    JoinSplit(ws, 4);
    assert ws[..4] == ["The", "quick", "brown", "fox"];
    assert ws[4..] == ["jumps", "over", "the", "lazy", "dog"];
    HeadFour();
    TailFive();
    SentenceHalves();
  }

  lemma DefaultWordsPlain()
    ensures forall k :: 0 <= k < |DefaultWords| ==> DefaultWords[k] != [] && NoSpace(DefaultWords[k]) && NoPunct(DefaultWords[k])
  {
  }

  lemma {:induction false} JoinAppend(ts: seq<string>, t: string)
    requires ts != []
    ensures Join(ts + [t]) == Join(ts) + [' '] + t
    decreases |ts|
  {
    assert (ts + [t])[0] == ts[0];
    assert (ts + [t])[1..] == ts[1..] + [t];
    if |ts| > 1 {
      JoinAppend(ts[1..], t);
    }
  }

  lemma PadSentence(ws: seq<string>, p: char)
    requires ws != [] && IsPunct(p)
    requires forall k :: 0 <= k < |ws| ==> NoPunct(ws[k])
    ensures Pad(Join(ws) + [p]) == Join(ws + [[p]]) + [' ']
  {
    var j := Join(ws);
    PadAppend(j, [p]);
    JoinNoPunct(ws);
    PadNoPunct(j);
    assert Pad([p]) == [' ', p, ' '] + Pad([]);
    JoinAppend(ws, [p]);
    SpacedMark(j, p);
  }

  lemma SpacedMark(j: string, p: char)
    ensures j + [' '] + [p] + [' '] == j + ([' ', p, ' '] + [])
  {
    assert [' ', p, ' '] + [] == [' '] + [p] + [' '];
  }

  /** Punctuation-free words followed by a punctuation mark: the words, then the mark as a token of its own. */
  lemma TokenizeSentence(ws: seq<string>, p: char)
    requires ws != [] && IsPunct(p)
    requires forall k :: 0 <= k < |ws| ==> ws[k] != [] && NoSpace(ws[k]) && NoPunct(ws[k])
    ensures Tokenize(Join(ws) + [p]) == ws + [[p]]
  {
    var text := Join(ws) + [p];
    var ts := ws + [[p]];
    TokensAsWords(text);
    PadSentence(ws, p);
    WordsTrailingSpace(Join(ts), []);
    MarkedWordsPlain(ws, p);
    WordsJoin(ts);
    calc {
      Tokenize(text);
      Words(Pad(text), []);
      Words(Join(ts) + [' '], []);
      Words(Join(ts), []);
      ts;
    }
  }

  /** Appending a punctuation mark as its own word keeps every word non-empty and space-free. */
  lemma MarkedWordsPlain(ws: seq<string>, p: char)
    requires IsPunct(p)
    requires forall k :: 0 <= k < |ws| ==> ws[k] != [] && NoSpace(ws[k])
    ensures forall k :: 0 <= k < |ws + [[p]]| ==> (ws + [[p]])[k] != [] && NoSpace((ws + [[p]])[k])
  {
    PunctNotSpace(p);
    assert NoSpace([p]);
    forall k | 0 <= k < |ws + [[p]]| ensures (ws + [[p]])[k] != [] && NoSpace((ws + [[p]])[k]) {
      if k < |ws| {
        assert (ws + [[p]])[k] == ws[k];
      }
    }
  }

  /** The page's initial sentence: ten tokens, the full stop being the last. */
  lemma DefaultTextTokens()
    ensures DefaultText == "The quick brown fox jumps over the lazy dog."
    ensures Tokenize(DefaultText) == DefaultWords + ["."]
    ensures |Tokenize(DefaultText)| == 10
  {
    DefaultTextLiteral();
    DefaultWordsPlain();
    TokenizeSentence(DefaultWords, '.');
  }

  lemma {:induction false} JoinNoPunct(ts: seq<string>)
    requires forall k :: 0 <= k < |ts| ==> NoPunct(ts[k])
    ensures NoPunct(Join(ts))
    decreases |ts|
  {
    if |ts| > 1 {
      JoinNoPunct(ts[1..]);
    }
  }

  /** Non-empty, whitespace-free tokens joined by single spaces split back into themselves. */
  lemma {:induction false} WordsJoin(ts: seq<string>)
    requires forall k :: 0 <= k < |ts| ==> ts[k] != [] && NoSpace(ts[k])
    ensures Words(Join(ts), []) == ts
    decreases |ts|
  {
    if ts == [] {
    } else if |ts| == 1 {
      WordsRun(ts[0], [], []);
      assert ts[0] + [] == ts[0] && [] + ts[0] == ts[0];
      assert Join(ts) == ts[0];
    } else {
      var j := Join(ts[1..]);
      WordsRun(ts[0], [' '] + j, []);
      assert Join(ts) == ts[0] + ([' '] + j);
      assert ([' '] + j)[1..] == j;
      assert [] + ts[0] == ts[0];
      assert Words([' '] + j, ts[0]) == [ts[0]] + Words(j, []);
      WordsJoin(ts[1..]);
    }
  }

  // ---------------------------------------------------------------------
  // Weights: one row per head, one column per token, each row divided by its sum
  // ---------------------------------------------------------------------

  /** A JavaScript number produced by the normalisation: a real value, or NaN from 0 / 0 */
  datatype Weight = Finite(value: real) | NotANumber

  /** A value `Math.random()` can return */
  predicate IsDraw(x: real) {
    0.0 <= x < 1.0
  }

  /** `draws` holds one `Math.random()` value per head and token, in the order the loops request them */
  predicate DrawsFor(draws: seq<seq<real>>, numHeads: nat, n: nat) {
    && |draws| == numHeads
    && forall h :: 0 <= h < |draws| ==> |draws[h]| == n && forall j :: 0 <= j < n ==> IsDraw(draws[h][j])
  }

  predicate NonNegative(row: seq<real>) {
    forall j :: 0 <= j < |row| ==> 0.0 <= row[j]
  }

  /** `reduce((a, b) => a + b, 0)`: a left fold */
  function Sum(row: seq<real>): real {
    if row == [] then 0.0 else Sum(row[..|row| - 1]) + row[|row| - 1]
  }

  /** The real values of a row that has no NaN */
  function Reals(ws: seq<Weight>): (r: seq<real>)
    requires forall j :: 0 <= j < |ws| ==> ws[j].Finite?
  {
    seq(|ws|, j requires 0 <= j < |ws| => ws[j].value)
  }

  /** Every entry is a number in [0, 1] and the entries sum to 1. */
  predicate IsDistribution(ws: seq<Weight>) {
    && (forall j :: 0 <= j < |ws| ==> ws[j].Finite? && 0.0 <= ws[j].value <= 1.0)
    && Sum(Reals(ws)) == 1.0
  }

  /** `headWeights.map(w => w / sum)` with `sum` the row's total */
  function Normalize(row: seq<real>): (r: seq<Weight>)
    requires NonNegative(row)
    ensures |r| == |row|
    ensures Sum(row) == 0.0 ==> forall j :: 0 <= j < |r| ==> r[j] == NotANumber
    ensures Sum(row) > 0.0 ==> IsDistribution(r)
    ensures Sum(row) > 0.0 ==> forall j :: 0 <= j < |r| ==> r[j].Finite? && r[j].value * Sum(row) == row[j]
  {
    var sum := Sum(row);
    SumNonNegative(row);
    var r := seq(|row|, j requires 0 <= j < |row| => if sum == 0.0 then NotANumber else Finite(row[j] / sum));
    if sum > 0.0 then
      forall j | 0 <= j < |row| ensures 0.0 <= row[j] / sum <= 1.0 {
        ElementAtMostSum(row, j);
      }
      assert Reals(r) == Scale(row, sum);
      SumScale(row, sum);
      r
    else r
  }

  /** Each entry divided by `c` */
  function Scale(row: seq<real>, c: real): (r: seq<real>)
    requires c != 0.0
    ensures |r| == |row|
  {
    seq(|row|, j requires 0 <= j < |row| => row[j] / c)
  }

  lemma DivAdd(a: real, b: real, c: real)
    requires c != 0.0
    ensures (a + b) / c == a / c + b / c
  {
  }

  /** Dividing every entry by `c` divides the sum by `c`. */
  lemma {:induction false} SumScale(row: seq<real>, c: real)
    requires c != 0.0
    ensures Sum(Scale(row, c)) == Sum(row) / c
    decreases |row|
  {
    if row != [] {
      var n := |row|;
      var front := row[..n - 1];
      assert Scale(row, c)[..n - 1] == Scale(front, c);
      SumScale(front, c);
      DivAdd(Sum(front), row[n - 1], c);
    }
  }

  lemma {:induction false} SumNonNegative(row: seq<real>)
    requires NonNegative(row)
    ensures Sum(row) >= 0.0
    decreases |row|
  {
    if row != [] {
      SumNonNegative(row[..|row| - 1]);
    }
  }

  /** In a row of non-negative draws no entry exceeds the row's sum. */
  lemma {:induction false} ElementAtMostSum(row: seq<real>, j: int)
    requires NonNegative(row) && 0 <= j < |row|
    ensures row[j] <= Sum(row)
    decreases |row|
  {
    var front := row[..|row| - 1];
    if j < |row| - 1 {
      ElementAtMostSum(front, j);
      assert row[|row| - 1] >= 0.0;
    } else {
      SumNonNegative(front);
    }
  }

  /** A row of draws sums to zero only when every draw is zero. */
  lemma ZeroSumRow(row: seq<real>)
    requires NonNegative(row) && Sum(row) == 0.0
    ensures forall j :: 0 <= j < |row| ==> row[j] == 0.0
  {
    forall j | 0 <= j < |row| ensures row[j] == 0.0 {
      ElementAtMostSum(row, j);
    }
  }

  /** The result of `calculateAttention` */
  datatype AttentionData = AttentionData(tokens: seq<string>, weights: seq<seq<Weight>>)

  /**
   * `calculateAttention(text, numHeads)`: the tokens, and `numHeads` rows of
   * one weight per token, each row the head's draws divided by their sum.
   */
  /** One head's row: the head's draw for each token, in token order. */
  method DrawRow(row: seq<real>, n: nat) returns (headWeights: seq<real>)
    requires |row| == n
    ensures headWeights == row
  {
    headWeights := [];
    var j := 0;
    while j < n
      invariant 0 <= j <= n
      invariant headWeights == row[..j]
    {
      headWeights := headWeights + [row[j]];
      j := j + 1;
    }
  }

  /** The running total of a row, accumulated left to right. */
  method RowSum(row: seq<real>) returns (sum: real)
    ensures sum == Sum(row)
  {
    sum := 0.0;
    var k := 0;
    while k < |row|
      invariant 0 <= k <= |row|
      invariant sum == Sum(row[..k])
    {
      assert row[..k + 1][..k] == row[..k];
      sum := sum + row[k];
      k := k + 1;
    }
    assert row[..k] == row;
  }

  /** Each draw divided by the row's total (`NaN` throughout when the total is zero). */
  method NormalizeRow(row: seq<real>) returns (normalized: seq<Weight>)
    requires NonNegative(row)
    ensures normalized == Normalize(row)
  {
    var sum := RowSum(row);
    normalized := [];
    var k := 0;
    while k < |row|
      invariant 0 <= k <= |row|
      invariant |normalized| == k
      invariant forall m :: 0 <= m < k ==> normalized[m] == (if sum == 0.0 then NotANumber else Finite(row[m] / sum))
    {
      var w := if sum == 0.0 then NotANumber else Finite(row[k] / sum);
      normalized := normalized + [w];
      k := k + 1;
    }
  }

  method CalculateAttention(text: string, numHeads: nat, draws: seq<seq<real>>) returns (data: AttentionData)
    requires DrawsFor(draws, numHeads, |Tokenize(text)|)
    ensures data.tokens == Tokenize(text)
    ensures |data.weights| == numHeads
    ensures forall h :: 0 <= h < numHeads ==> |data.weights[h]| == |data.tokens|
    ensures forall h :: 0 <= h < numHeads ==> NonNegative(draws[h]) && data.weights[h] == Normalize(draws[h])
    ensures forall h :: 0 <= h < numHeads && Sum(draws[h]) > 0.0 ==> IsDistribution(data.weights[h])
    ensures forall h :: 0 <= h < numHeads && Sum(draws[h]) == 0.0 ==>
              forall j :: 0 <= j < |data.tokens| ==> data.weights[h][j] == NotANumber
  {
    var tokens := Tokenize(text);
    var weights: seq<seq<Weight>> := [];
    var i := 0;
    while i < numHeads
      invariant 0 <= i <= numHeads
      invariant |weights| == i
      invariant forall h :: 0 <= h < i ==> NonNegative(draws[h]) && weights[h] == Normalize(draws[h])
    {
      var headWeights := DrawRow(draws[i], |tokens|);
      var normalized := NormalizeRow(headWeights);
      weights := weights + [normalized];
      i := i + 1;
    }
    data := AttentionData(tokens, weights);
  }

  /** The page state the "visualize" action reads and writes */
  datatype Playground = Playground(inputText: string, numHeads: nat, attentionData: Option<AttentionData>, activeTab: string)

  /** The page as first rendered */
  const InitialPlayground: Playground := Playground(DefaultText, 4, None, "input")

  /**
   * `visualizeAttention`: a blank input changes nothing; otherwise the
   * result is stored and the visualization tab is shown.
   */
  method VisualizeAttention(p: Playground, draws: seq<seq<real>>) returns (p': Playground)
    requires DrawsFor(draws, p.numHeads, |Tokenize(p.inputText)|)
    ensures Trim(p.inputText) == [] ==> p' == p
    ensures Trim(p.inputText) != [] ==>
              && p'.inputText == p.inputText && p'.numHeads == p.numHeads
              && p'.attentionData.Some? && p'.activeTab == "visualization"
              && p'.attentionData.value.tokens == Tokenize(p.inputText)
              && |p'.attentionData.value.tokens| >= 1
              && |p'.attentionData.value.weights| == p.numHeads
              && forall h :: 0 <= h < p.numHeads ==>
                   NonNegative(draws[h]) && p'.attentionData.value.weights[h] == Normalize(draws[h])
  {
    if Trim(p.inputText) != [] {
      var result := CalculateAttention(p.inputText, p.numHeads, draws);
      NonBlankHasToken(p.inputText);
      p' := p.(attentionData := Some(result), activeTab := "visualization");
    } else {
      p' := p;
    }
  }
}
