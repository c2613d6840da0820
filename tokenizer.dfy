/** The whitespace tokenizer: a cursor over a document's text that hands out
    one maximal run of non-whitespace characters per call. */
module Tokenizing {

  /** `isspace` in the classic locale: space, tab, line feed, vertical tab,
      form feed and carriage return, the separators of `operator>>` on a string. */
  predicate IsSpace(c: char) {
    c == ' ' || c == '\t' || c == '\n' || c == '\U{0B}' || c == '\U{0C}' || c == '\r'
  }

  /** The first position at or after `p` that does not hold whitespace. */
  function SkipSpaces(t: string, p: nat): (q: nat)
    requires p <= |t|
    ensures p <= q <= |t|
    ensures forall i :: p <= i < q ==> IsSpace(t[i])
    ensures q < |t| ==> !IsSpace(t[q])
    decreases |t| - p
  {
    if p == |t| || !IsSpace(t[p]) then p else SkipSpaces(t, p + 1)
  }

  /** The first position at or after `p` that holds whitespace, or the end. */
  function WordEnd(t: string, p: nat): (q: nat)
    requires p <= |t|
    ensures p <= q <= |t|
    ensures forall i :: p <= i < q ==> !IsSpace(t[i])
    ensures q < |t| ==> IsSpace(t[q])
    decreases |t| - p
  {
    if p == |t| || IsSpace(t[p]) then p else WordEnd(t, p + 1)
  }

  /** The positions `[start, end)` of the words of `t[p..]`, left to right. */
  function Spans(t: string, p: nat): (sp: seq<(nat, nat)>)
    requires p <= |t|
    ensures forall k :: 0 <= k < |sp| ==> p <= sp[k].0 < sp[k].1 <= |t|
    decreases |t| - p
  {
    var b := SkipSpaces(t, p);
    if b == |t| then []
    else [(b, WordEnd(t, b))] + Spans(t, WordEnd(t, b))
  }

  /** Each span is a maximal run of non-whitespace characters, and the spans
      come in left-to-right order with whitespace between them. */
  lemma {:induction false} SpanIsMaximalRun(t: string, p: nat, k: nat)
    requires p <= |t| && k < |Spans(t, p)|
    ensures var (b, e) := Spans(t, p)[k];
      && (forall i :: b <= i < e ==> !IsSpace(t[i]))
      && (e < |t| ==> IsSpace(t[e]))
      && (p < b ==> IsSpace(t[b - 1]))
      && (k + 1 < |Spans(t, p)| ==> e < Spans(t, p)[k + 1].0)
    decreases |t| - p
  {
    var b := SkipSpaces(t, p);
    var e := WordEnd(t, b);
    var rest := Spans(t, e);
    assert Spans(t, p) == [(b, e)] + rest;
    if rest != [] {
      assert rest[0].0 == SkipSpaces(t, e);
      assert e < rest[0].0;
    }
    if k > 0 {
      SpanIsMaximalRun(t, e, k - 1);
      assert e < rest[k - 1].0;
    }
  }

  /** The words of `t[p..]`: its maximal runs of non-whitespace characters. */
  function Words(t: string, p: nat): (ws: seq<string>)
    requires p <= |t|
    ensures |ws| == |Spans(t, p)|
    decreases |t| - p
  {
    var b := SkipSpaces(t, p);
    if b == |t| then []
    else [t[b..WordEnd(t, b)]] + Words(t, WordEnd(t, b))
  }

  /** The `k`-th word is the text of the `k`-th span, so it is not empty. */
  lemma {:induction false} WordIsSpan(t: string, p: nat, k: nat)
    requires p <= |t| && k < |Words(t, p)|
    ensures Words(t, p)[k] == t[Spans(t, p)[k].0..Spans(t, p)[k].1]
    ensures Words(t, p)[k] != ""
    decreases |t| - p
  {
    var e := WordEnd(t, SkipSpaces(t, p));
    if k > 0 {
      WordIsSpan(t, e, k - 1);
    }
  }

  /** No word is the "" sentinel. */
  lemma {:induction false} WordsNonEmpty(t: string, p: nat)
    requires p <= |t|
    ensures forall k :: 0 <= k < |Words(t, p)| ==> Words(t, p)[k] != ""
  {
    forall k | 0 <= k < |Words(t, p)|
      ensures Words(t, p)[k] != ""
    {
      WordIsSpan(t, p, k);
    }
  }

  /** Every word is non-empty and holds no whitespace character. */
  lemma {:induction false} WordsHaveNoSpace(t: string, p: nat, k: nat, i: nat)
    requires p <= |t| && k < |Words(t, p)| && i < |Words(t, p)[k]|
    ensures !IsSpace(Words(t, p)[k][i])
  {
    var (b, e) := Spans(t, p)[k];
    WordIsSpan(t, p, k);
    SpanIsMaximalRun(t, p, k);
    assert Words(t, p)[k][i] == t[b + i];
  }

  /** Dropping the first word of `t[p..]` leaves the words after its end. */
  lemma {:induction false} WordsStep(t: string, p: nat)
    requires p <= |t| && Words(t, p) != []
    ensures Spans(t, p)[0].1 <= |t|
    ensures Words(t, Spans(t, p)[0].1) == Words(t, p)[1..]
  {
    var e := WordEnd(t, SkipSpaces(t, p));
    assert Spans(t, p)[0].1 == e;
    assert Words(t, p) == [Words(t, p)[0]] + Words(t, e);
  }

  /** Every non-whitespace character of `t[p..]` lies inside some word:
      together with the ensures of Spans, the words are exactly the maximal runs. */
  lemma {:induction false} SpansCover(t: string, p: nat, i: nat)
    requires p <= i < |t| && !IsSpace(t[i])
    ensures exists k :: 0 <= k < |Spans(t, p)| && Spans(t, p)[k].0 <= i < Spans(t, p)[k].1
    decreases |t| - p
  {
    var b := SkipSpaces(t, p);
    var e := WordEnd(t, b);
    var sp := Spans(t, p);
    assert b <= i;
    assert sp[0] == (b, e);
    if e <= i {
      SpansCover(t, e, i);
      var k :| 0 <= k < |Spans(t, e)| && Spans(t, e)[k].0 <= i < Spans(t, e)[k].1;
      assert sp[k + 1] == Spans(t, e)[k];
    }
  }

  /** Text that is empty or only whitespace has no words. */
  lemma {:induction false} BlankTextHasNoWords(t: string)
    requires forall i :: 0 <= i < |t| ==> IsSpace(t[i])
    ensures Words(t, 0) == []
  {
    if Spans(t, 0) != [] {
      SpanIsMaximalRun(t, 0, 0);
    }
  }

  /** `i` starts a maximal run of non-whitespace characters. */
  predicate IsRunStart(t: string, i: nat)
    requires i < |t|
  {
    !IsSpace(t[i]) && (i == 0 || IsSpace(t[i - 1]))
  }

  /** The number of maximal non-whitespace runs that start at or after `p`. */
  function RunStarts(t: string, p: nat): nat
    requires p <= |t|
    decreases |t| - p
  {
    if p == |t| then 0 else (if IsRunStart(t, p) then 1 else 0) + RunStarts(t, p + 1)
  }

  lemma {:induction false} NoRunStartBetween(t: string, p: nat, q: nat)
    requires p <= q <= |t|
    requires forall i :: p <= i < q ==> !IsRunStart(t, i)
    ensures RunStarts(t, p) == RunStarts(t, q)
    decreases q - p
  {
    if p < q {
      NoRunStartBetween(t, p + 1, q);
    }
  }

  /** Skipping whitespace passes no run start. */
  lemma {:induction false} RunStartsAfterSpaces(t: string, p: nat)
    requires p <= |t|
    ensures RunStarts(t, p) == RunStarts(t, SkipSpaces(t, p))
  {
    var b := SkipSpaces(t, p);
    forall i | p <= i < b
      ensures !IsRunStart(t, i)
    {
      assert IsSpace(t[i]);
    }
    NoRunStartBetween(t, p, b);
  }

  /** A word preceded by whitespace or the start of the text holds exactly
      one run start, its first character. */
  lemma {:induction false} RunStartsOfWord(t: string, b: nat)
    requires b < |t| && !IsSpace(t[b]) && (b == 0 || IsSpace(t[b - 1]))
    ensures RunStarts(t, b) == 1 + RunStarts(t, WordEnd(t, b))
  {
    var e := WordEnd(t, b);
    forall i | b + 1 <= i < e
      ensures !IsRunStart(t, i)
    {
      assert !IsSpace(t[i - 1]);
    }
    assert IsRunStart(t, b);
    NoRunStartBetween(t, b + 1, e);
  }

  /** One word per run: the number of words of `t[p..]` is the number of runs
      starting in it, when `p` is not inside a word. */
  lemma {:induction false} WordCountIsRunCount(t: string, p: nat)
    requires p <= |t|
    requires p == 0 || p == |t| || IsSpace(t[p - 1]) || IsSpace(t[p])
    ensures |Words(t, p)| == RunStarts(t, p)
    decreases |t| - p
  {
    var b := SkipSpaces(t, p);
    RunStartsAfterSpaces(t, p);
    if b < |t| {
      assert b == 0 || IsSpace(t[b - 1]);
      RunStartsOfWord(t, b);
      WordCountIsRunCount(t, WordEnd(t, b));
    }
  }

  /** The number of tokens of a whole text is its number of maximal runs. */
  lemma {:induction false} TokenCount(t: string)
    ensures |Words(t, 0)| == RunStarts(t, 0)
  {
    WordCountIsRunCount(t, 0);
  }

  /** `currentPosition`: an offset into the text, or the value that `tellg()`
      reports once extraction has hit the end of the text (-1, cast to
      unsigned), from which the next `seekg` fails. */
  datatype Cursor = At(pos: nat) | Exhausted

  /** The words a tokenizer at cursor `c` still has to hand out. */
  function Remaining(t: string, c: Cursor): seq<string>
  {
    match c
    case At(p) => if p <= |t| then Words(t, p) else []
    case Exhausted => []
  }

  /** The cursor value just past a word that ends at `e`. */
  function After(t: string, e: nat): Cursor
  {
    if e < |t| then At(e) else Exhausted
  }

  /** One stream step of `getNextToken`: seek to `c`, extract one word with
      `operator>>`, and report where `tellg()` then stands. */
  method ExtractWord(t: string, c: Cursor) returns (ok: bool, word: string, next: Cursor)
    ensures ok == (Remaining(t, c) != [])
    ensures ok ==> c.At? && word == Remaining(t, c)[0] && word != ""
    ensures ok ==> next == After(t, Spans(t, c.pos)[0].1) && c.pos < Spans(t, c.pos)[0].1
    ensures ok ==> Remaining(t, next) == Remaining(t, c)[1..]
    ensures !ok ==> word == "" && next == c
  {
    if c.Exhausted? || c.pos > |t| {
      // seekg to a position past the end fails, so extraction fails
      return false, "", c;
    }
    var i := c.pos;
    while i < |t| && IsSpace(t[i])
      invariant c.pos <= i <= |t|
      invariant forall j :: c.pos <= j < i ==> IsSpace(t[j])
    {
      i := i + 1;
    }
    assert i == SkipSpaces(t, c.pos);
    if i == |t| {
      // only whitespace left: extraction fails at the end of the text
      return false, "", c;
    }
    var j := i;
    while j < |t| && !IsSpace(t[j])
      invariant i <= j <= |t|
      invariant forall k :: i <= k < j ==> !IsSpace(t[k])
    {
      j := j + 1;
    }
    assert j == WordEnd(t, i);
    ok, word, next := true, t[i..j], After(t, j);
    WordsStep(t, c.pos);
  }

  /** `Tokenizer`: hands out the words of one document's text, one per call. */
  class Tokenizer {
    const text: string
    var currentPosition: Cursor

    /** The words not yet handed out. */
    function Pending(): seq<string>
      reads this
    {
      Remaining(text, currentPosition)
    }

    constructor (text: string)
      ensures this.text == text && currentPosition == At(0)
      ensures Pending() == Words(text, 0)
    {
      this.text := text;
      currentPosition := At(0);
    }

    /** The next word, or "" once the words are used up; a call that finds
        no word leaves the cursor where it was. */
    method GetNextToken() returns (word: string)
      modifies this
      ensures old(Pending()) == [] ==> word == "" && currentPosition == old(currentPosition)
      ensures old(Pending()) != [] ==> word == old(Pending())[0] && Pending() == old(Pending())[1..]
      ensures old(Pending()) != [] ==> word != ""
      ensures old(Pending()) != [] ==>
        old(currentPosition).At? &&
        currentPosition == After(text, Spans(text, old(currentPosition).pos)[0].1)
    {
      var ok, w, next := ExtractWord(text, currentPosition);
      if ok {
        currentPosition := next;
        word := w;
      } else {
        word := "";
      }
    }
  }
}
