/** Redaction of the session keys in logged control messages. */
module Redaction {
  // ---------- Searching ----------

  /** `std::string::find` of a character; the length stands for `npos`. */
  function FindChar(s: string, c: char, from: nat): (r: nat)
    ensures from <= |s| ==> from <= r <= |s|
    ensures from > |s| ==> r == |s|
    ensures forall k :: from <= k < r && k < |s| ==> s[k] != c
    ensures r < |s| ==> from <= r && s[r] == c
    decreases |s| - from
  {
    if from >= |s| then |s| else if s[from] == c then from else FindChar(s, c, from + 1)
  }

  predicate Occurs(s: string, needle: string, p: nat) { p + |needle| <= |s| && s[p..p + |needle|] == needle }

  function FindString(s: string, needle: string, from: nat): (r: nat)
    ensures r <= |s|
    ensures r < |s| ==> from <= r && Occurs(s, needle, r)
    ensures forall k :: from <= k < r ==> k < |s| && !Occurs(s, needle, k)
    ensures r == |s| ==> forall k :: from <= k < |s| ==> !Occurs(s, needle, k)
    decreases |s| - from
  {
    if from >= |s| then |s| else if Occurs(s, needle, from) then from else FindString(s, needle, from + 1)
  }

  // ---------- What redaction promises ----------

  const REDACTED := "<redacted>"
  const SECRET_KEYS := ["aesKey", "aesIvMask"]

  function Needle(key: string): string { "\"" + key + "\"" }

  /** Keys are plain words. */
  predicate PlainKey(key: string) { key != "" && key[0] != '<' && '"' !in key && ':' !in key }

  /** The first quoted string after the first colon from a position on: its colon and its two quotes. */
  ghost predicate IsSpan(s: string, at: nat, colon: nat, open: nat, close: nat) {
    && at <= colon < open < close < |s| && s[colon] == ':' && s[open] == '"' && s[close] == '"'
    && (forall k :: at <= k < colon ==> s[k] != ':')
    && (forall k :: colon < k < open ==> s[k] != '"')
    && (forall k :: open < k < close ==> s[k] != '"')
  }

  /** The value that follows a position is redacted, if there is one. */
  ghost predicate Hidden(s: string, at: nat) {
    forall colon: nat, open: nat, close: nat :: IsSpan(s, at, colon, open, close) ==> s[open + 1..close] == REDACTED
  }

  /** Every occurrence of a key before a position has its value redacted. */
  ghost predicate HiddenBefore(s: string, key: string, pos: nat) {
    forall p :: 0 <= p < pos && Occurs(s, Needle(key), p) ==> Hidden(s, p + |Needle(key)|)
  }

  ghost predicate AllHidden(s: string, key: string) { HiddenBefore(s, key, |s|) }

  // ---------- One replacement ----------

  datatype Span = NoSpan | Span(colon: nat, open: nat, close: nat)

  function ValueSpan(s: string, at: nat): (v: Span)
    ensures v.Span? ==> IsSpan(s, at, v.colon, v.open, v.close)
  {
    var colon := FindChar(s, ':', at);
    if colon == |s| then NoSpan
    else
      var open := FindChar(s, '"', colon + 1);
      if open == |s| then NoSpan
      else
        var close := FindChar(s, '"', open + 1);
        if close == |s| then NoSpan else Span(colon, open, close)
  }

  /** Past a position without a value there is none either. */
  lemma NoSpanAfter(s: string, from: nat, at: nat)
    requires ValueSpan(s, from).NoSpan? && at >= from
    ensures Hidden(s, at)
  {
  }

  /** The text with the characters between two quotes replaced. */
  function Replaced(s: string, v: Span): string
    requires v.Span? && v.open < v.close < |s|
  {
    s[..v.open + 1] + REDACTED + s[v.close..]
  }

  /** Where the closing quote of a replaced value lies afterwards. */
  function NewClose(v: Span): nat
    requires v.Span?
  {
    v.open + 1 + |REDACTED|
  }

  /** A replacement character by character. */
  lemma ReplacedAt(s: string, v: Span)
    requires v.Span? && v.open < v.close < |s|
    ensures var t := Replaced(s, v);
            && |t| == |s| - v.close + NewClose(v)
            && (forall k :: 0 <= k <= v.open ==> t[k] == s[k])
            && (forall k :: v.open < k < NewClose(v) ==> t[k] == REDACTED[k - v.open - 1] && t[k] != '"' && t[k] != ':')
            && (forall k :: NewClose(v) <= k < |t| ==> t[k] == s[k - NewClose(v) + v.close])
            && (forall k :: v.close <= k < |s| ==> s[k] == t[k - v.close + NewClose(v)])
  {
  }

  /** A key occurs in `s` at `p`, and `v` is the value that follows it. */
  ghost predicate Edit(s: string, key: string, p: nat, v: Span) {
    && PlainKey(key) && Occurs(s, Needle(key), p) && v.Span?
    && IsSpan(s, p + |Needle(key)|, v.colon, v.open, v.close)
  }

  /** An occurrence of a key is quotes at its ends and neither quotes nor colons between. */
  lemma NeedleShape(s: string, key: string, p: nat)
    requires PlainKey(key) && Occurs(s, Needle(key), p)
    ensures s[p] == '"' && s[p + |key| + 1] == '"' && s[p + 1] != '<'
    ensures forall k :: p < k <= p + |key| ==> s[k] != '"'
    ensures forall k :: p <= k < p + |Needle(key)| ==> s[k] != ':'
  {
    var n := Needle(key);
    assert forall k :: 0 <= k < |n| ==> s[p + k] == s[p..p + |n|][k] == n[k];
    assert s[p + 1] == n[1] == key[0];
    forall k | p < k <= p + |key| ensures s[k] != '"' && s[k] != ':' {
      assert s[p + (k - p)] == n[k - p] == key[k - p - 1];
    }
  }

  lemma OccursByCharacters(s: string, t: string, needle: string, p: nat, q: nat)
    requires Occurs(t, needle, p) && q + |needle| <= |s|
    requires forall k :: p <= k < p + |needle| ==> t[k] == s[k - p + q]
    ensures Occurs(s, needle, q)
  {
    var a, b := s[q..q + |needle|], t[p..p + |needle|];
    forall k | 0 <= k < |needle| ensures a[k] == b[k] {
      assert b[k] == t[p + k];
    }
  }

  /** Where a key occurs after a replacement it occurred before, either ending no later than the replaced
      value's colon, or from the closing quote on. */
  lemma OccurrenceMoves(s: string, v: Span, from: nat, key: string, p: nat)
    requires PlainKey(key) && v.Span? && IsSpan(s, from, v.colon, v.open, v.close)
    requires Occurs(Replaced(s, v), Needle(key), p)
    ensures var n := |Needle(key)|;
            || (p + n <= v.colon && Occurs(s, Needle(key), p))
            || (p >= NewClose(v) && Occurs(s, Needle(key), p - NewClose(v) + v.close))
  {
    hide Replaced, Occurs, PlainKey;
    var t, n := Replaced(s, v), |Needle(key)|;
    OccursFits(t, Needle(key), p);
    NeedleShape(t, key, p);
    ReplacedAt(s, v);
    assert t[v.open + 1] == '<';
    assert p != v.open && (p > v.open ==> p >= NewClose(v)) && (p < v.open ==> p + n <= v.open + 1);
    if p >= NewClose(v) {
      OccursByCharacters(s, t, Needle(key), p, p - NewClose(v) + v.close);
    } else {
      assert p <= v.colon;
      OccursByCharacters(s, t, Needle(key), p, p);
    }
  }

  lemma OccursFits(s: string, needle: string, p: nat)
    requires Occurs(s, needle, p)
    ensures p + |needle| <= |s|
  {
  }

  /** A replacement hides the values whose colon is its own and keeps earlier ones hidden. */
  lemma PrefixHidden(s: string, key: string, p: nat, v: Span, at: nat)
    requires Edit(s, key, p, v) && at <= v.colon && (at < p + |Needle(key)| ==> Hidden(s, at))
    ensures Hidden(Replaced(s, v), at)
  {
    hide Replaced, Hidden, Occurs, PlainKey;
    var t, from := Replaced(s, v), p + |Needle(key)|;
    NeedleShape(s, key, p);
    ReplacedAt(s, v);
    forall colon: nat, open: nat, close: nat | IsSpan(t, at, colon, open, close)
      ensures t[open + 1..close] == REDACTED
    {
      if colon < v.colon {
        assert colon < p && open <= p && close < from;
        HiddenValue(s, at, colon, open, close);
        assert t[open + 1..close] == s[open + 1..close];
      } else {
        assert colon == v.colon && open == v.open && close == NewClose(v);
      }
    }
    AllValuesHidden(t, at);
  }

  /** A replacement keeps the values behind it hidden. */
  lemma SuffixHidden(s: string, v: Span, from: nat, at: nat)
    requires v.Span? && IsSpan(s, from, v.colon, v.open, v.close) && at >= v.close && Hidden(s, at)
    ensures Hidden(Replaced(s, v), at - v.close + NewClose(v))
  {
    hide Replaced, Hidden, IsSpan;
    SpanBounds(s, from, v.colon, v.open, v.close);
    ReplacedAt(s, v);
    HiddenShifts(s, Replaced(s, v), at, v.close, NewClose(v) - v.close);
  }

  lemma HiddenShifts(s: string, t: string, at: nat, from: nat, d: int)
    requires from <= at && from + d >= 0 && |t| == |s| + d && Hidden(s, at)
    requires forall k :: from <= k < |s| ==> s[k] == t[k + d]
    ensures Hidden(t, at + d)
  {
    hide Hidden;
    var moved := at + d;
    forall colon: nat, open: nat, close: nat | IsSpan(t, moved, colon, open, close)
      ensures t[open + 1..close] == REDACTED
    {
      SpanShifts(s, t, at, from, d, colon, open, close);
      HiddenValue(s, at, colon - d, open - d, close - d);
    }
    AllValuesHidden(t, moved);
  }

  lemma SpanBounds(s: string, at: nat, colon: nat, open: nat, close: nat)
    requires IsSpan(s, at, colon, open, close)
    ensures at <= colon < open < close < |s|
  {
  }

  /** A span in a moved suffix is a span of the original one. */
  lemma SpanShifts(s: string, t: string, at: nat, from: nat, d: int, colon: nat, open: nat, close: nat)
    requires from <= at && from + d >= 0 && |t| == |s| + d && IsSpan(t, at + d, colon, open, close)
    requires forall k :: from <= k < |s| ==> s[k] == t[k + d]
    ensures IsSpan(s, at, colon - d, open - d, close - d)
    ensures t[open + 1..close] == s[open + 1 - d..close - d]
  {
    assert s[colon - d] == ':' && s[open - d] == '"' && s[close - d] == '"';
  }

  lemma HiddenValue(s: string, at: nat, colon: nat, open: nat, close: nat)
    requires Hidden(s, at) && IsSpan(s, at, colon, open, close)
    ensures s[open + 1..close] == REDACTED
  {
  }

  lemma AllValuesHidden(s: string, at: nat)
    requires forall colon: nat, open: nat, close: nat ::
               IsSpan(s, at, colon, open, close) ==> s[open + 1..close] == REDACTED
    ensures Hidden(s, at)
  {
  }

  /** One replacement in the pass for a key, at the first occurrence from `pos` on. */
  lemma PassAdvances(s: string, key: string, pos: nat, p: nat, v: Span)
    requires Edit(s, key, p, v) && HiddenBefore(s, key, pos)
    requires forall k :: pos <= k < p ==> !Occurs(s, Needle(key), k)
    ensures HiddenBefore(Replaced(s, v), key, v.open + 1)
  {
    hide Replaced, Hidden, Occurs, PlainKey;
    var t, n := Replaced(s, v), |Needle(key)|;
    forall q | 0 <= q < v.open + 1 && Occurs(t, Needle(key), q) ensures Hidden(t, q + n) {
      OccurrenceMoves(s, v, p + n, key, q);
      PrefixHidden(s, key, p, v, q + n);
    }
  }

  /** The pass for a key ends at an occurrence that no value follows. */
  lemma PassEnds(s: string, key: string, pos: nat, p: nat)
    requires HiddenBefore(s, key, pos) && ValueSpan(s, p + |Needle(key)|).NoSpan?
    requires forall k :: pos <= k < p ==> !Occurs(s, Needle(key), k)
    ensures AllHidden(s, key)
  {
    hide Hidden, Occurs, ValueSpan;
    forall q | p <= q < |s| && Occurs(s, Needle(key), q) ensures Hidden(s, q + |Needle(key)|) {
      NoSpanAfter(s, p + |Needle(key)|, q + |Needle(key)|);
    }
  }

  /** The pass for one key keeps the values of another key hidden. */
  lemma PassKeepsOther(s: string, key: string, p: nat, v: Span, other: string)
    requires Edit(s, key, p, v) && PlainKey(other) && AllHidden(s, other)
    ensures AllHidden(Replaced(s, v), other)
  {
    hide Replaced, Hidden, Occurs, PlainKey;
    var t, n := Replaced(s, v), |Needle(other)|;
    forall q | 0 <= q < |t| && Occurs(t, Needle(other), q) ensures Hidden(t, q + n) {
      OccurrenceMoves(s, v, p + |Needle(key)|, other, q);
      if q + n <= v.colon && Occurs(s, Needle(other), q) {
        PrefixHidden(s, key, p, v, q + n);
      } else {
        OccursFits(s, Needle(other), q - NewClose(v) + v.close);
        SuffixHidden(s, v, p + |Needle(key)|, q - NewClose(v) + v.close + n);
      }
    }
  }

  // ---------- What redaction may change ----------

  /** `t` is `s` with the value after one secret key replaced. */
  ghost predicate OneEdit(s: string, t: string) {
    exists key, p, v :: key in SECRET_KEYS && Edit(s, key, p, v) && t == Replaced(s, v)
  }

  ghost predicate Edits(trace: seq<string>) {
    trace != [] && forall i :: 0 < i < |trace| ==> OneEdit(trace[i - 1], trace[i])
  }

  /** `t` is `s` after some replacements of values after secret keys, and nothing else. */
  ghost predicate OnlyValuesReplaced(s: string, t: string) {
    exists trace :: Edits(trace) && trace[0] == s && trace[|trace| - 1] == t
  }

  lemma NothingReplaced(s: string)
    ensures OnlyValuesReplaced(s, s)
  {
    assert Edits([s]) && [s][0] == s;
  }

  lemma ReplacedMore(s: string, t: string, key: string, p: nat, v: Span)
    requires OnlyValuesReplaced(s, t) && key in SECRET_KEYS && Edit(t, key, p, v)
    ensures OnlyValuesReplaced(s, Replaced(t, v))
  {
    var trace :| Edits(trace) && trace[0] == s && trace[|trace| - 1] == t;
    var more := trace + [Replaced(t, v)];
    assert OneEdit(t, Replaced(t, v));
    assert forall i :: 0 < i < |more| ==> OneEdit(more[i - 1], more[i]);
    assert Edits(more) && more[0] == s && more[|more| - 1] == Replaced(t, v);
  }

  // ---------- Termination ----------

  function Quotes(s: string): nat {
    if s == "" then 0 else (if s[0] == '"' then 1 else 0) + Quotes(s[1..])
  }

  lemma {:induction false} QuotesConcat(a: string, b: string)
    ensures Quotes(a + b) == Quotes(a) + Quotes(b)
  {
    if a == "" {
      assert a + b == b;
    } else {
      assert (a + b)[1..] == a[1..] + b;
      QuotesConcat(a[1..], b);
    }
  }

  /** A replacement may lengthen the text but leaves fewer quotes to look at. */
  lemma FewerQuotes(s: string, pos: nat, p: nat, v: Span)
    requires v.Span? && pos <= p < v.open < v.close < |s| && s[p] == '"'
    ensures Quotes(Replaced(s, v)[v.open + 1..]) < Quotes(s[pos..])
  {
    SuffixAfter(s, v);
    QuotesConcat(REDACTED, s[v.close..]);
    NoQuotes(REDACTED);
    hide Quotes;
    assert s[pos..] == s[pos..p] + (s[p..v.close] + s[v.close..]);
    QuotesConcat(s[pos..p], s[p..v.close] + s[v.close..]);
    QuotesConcat(s[p..v.close], s[v.close..]);
    QuoteFirst(s[p..v.close]);
  }

  lemma SuffixAfter(s: string, v: Span)
    requires v.Span? && v.open < v.close < |s|
    ensures |Replaced(s, v)| > v.open && Replaced(s, v)[v.open + 1..] == REDACTED + s[v.close..]
  {
  }

  lemma QuoteFirst(s: string)
    requires s != "" && s[0] == '"'
    ensures Quotes(s) > 0
  {
  }

  lemma {:induction false} NoQuotes(s: string)
    requires '"' !in s
    ensures Quotes(s) == 0
  {
    if s != "" { NoQuotes(s[1..]); }
  }

  // ---------- The log filter ----------

  /** One pass: every occurrence of the key gets its value redacted, and keys done before stay done. */
  method RedactKey(ghost json: string, s: string, key: string, ghost done: seq<string>) returns (out: string)
    requires key in SECRET_KEYS && OnlyValuesReplaced(json, s)
    requires PlainKey(key) && forall k :: k in done ==> PlainKey(k) && AllHidden(s, k)
    ensures OnlyValuesReplaced(json, out)
    ensures AllHidden(out, key) && forall k :: k in done ==> AllHidden(out, k)
  {
    hide Hidden, Occurs, Replaced, Quotes, OnlyValuesReplaced, FindString, ValueSpan;
    out := s;
    var pos: nat := 0;
    while true
      invariant pos <= |out| && HiddenBefore(out, key, pos)
      invariant OnlyValuesReplaced(json, out) && forall k :: k in done ==> AllHidden(out, k)
      decreases Quotes(out[pos..])
    {
      var p := FindString(out, Needle(key), pos);
      if p == |out| {
        return;
      }
      OccursFits(out, Needle(key), p);
      var v := ValueSpan(out, p + |Needle(key)|);
      if v.NoSpan? {
        PassEnds(out, key, pos, p);
        return;
      }
      NeedleShape(out, key, p);
      PassAdvances(out, key, pos, p, v);
      forall k | k in done ensures AllHidden(Replaced(out, v), k) { PassKeepsOther(out, key, p, v, k); }
      ReplacedMore(json, out, key, p, v);
      FewerQuotes(out, pos, p, v);
      ReplacedAt(out, v);
      out := Replaced(out, v);
      pos := v.open + 1;
    }
  }

  /** The filter ends on every string, and in its result no occurrence of either secret key is followed by
      a quoted value other than the redaction mark; nothing but such values is changed. */
  method RedactSecrets(json: string) returns (out: string)
    ensures OnlyValuesReplaced(json, out)
    ensures AllHidden(out, "aesKey") && AllHidden(out, "aesIvMask")
  {
    hide OnlyValuesReplaced, AllHidden;
    NothingReplaced(json);
    out := json;
    var i := 0;
    while i < |SECRET_KEYS|
      invariant 0 <= i <= |SECRET_KEYS| && OnlyValuesReplaced(json, out)
      invariant forall key :: key in SECRET_KEYS[..i] ==> AllHidden(out, key)
    {
      assert SECRET_KEYS[..i + 1] == SECRET_KEYS[..i] + [SECRET_KEYS[i]];
      assert PlainKey("aesKey") && PlainKey("aesIvMask");
      assert forall key :: key in SECRET_KEYS ==> PlainKey(key);
      out := RedactKey(json, out, SECRET_KEYS[i], SECRET_KEYS[..i]);
      i := i + 1;
    }
    assert SECRET_KEYS[..i] == SECRET_KEYS;
    assert "aesKey" in SECRET_KEYS && "aesIvMask" in SECRET_KEYS;
  }
}
