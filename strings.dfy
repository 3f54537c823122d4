/**
 * The handful of Python `str` operations the core relies on, written out
 * over `seq<char>`: `str.isspace`, `str.split()` with no separator,
 * `sep.join(parts)`, `str.startswith`, `str.endswith`, `str.replace(old, "")`
 * and plain concatenation of a list of pieces.
 */
module Strings {

  /** Python's `str.isspace` for one character: the characters `str.split()` splits on. */
  predicate IsSpace(c: char) {
    || c == ' '
    || ('\t' <= c <= '\r')
    || ('\U{1C}' <= c <= '\U{1F}')
    || c == '\U{85}'
    || c == '\U{A0}'
    || c == '\U{1680}'
    || ('\U{2000}' <= c <= '\U{200A}')
    || c == '\U{2028}'
    || c == '\U{2029}'
    || c == '\U{202F}'
    || c == '\U{205F}'
    || c == '\U{3000}'
  }

  /** A word as `str.split()` produces it: non-empty and free of whitespace. */
  predicate IsToken(w: string) {
    |w| > 0 && forall i :: 0 <= i < |w| ==> !IsSpace(w[i])
  }

  predicate AllSpace(s: string) {
    forall i :: 0 <= i < |s| ==> IsSpace(s[i])
  }

  /** The longest prefix of `s` that holds no whitespace. */
  function LeadingWord(s: string): (w: string)
    ensures |w| <= |s| && w == s[..|w|]
    ensures forall i :: 0 <= i < |w| ==> !IsSpace(w[i])
    ensures |w| == |s| || IsSpace(s[|w|])
  {
    if s == [] || IsSpace(s[0]) then [] else [s[0]] + LeadingWord(s[1..])
  }

  /** Python's `s.split()`: the maximal runs of non-whitespace, in order. */
  function Split(s: string): (parts: seq<string>)
    decreases |s|
  {
    if s == [] then []
    else if IsSpace(s[0]) then Split(s[1..])
    else
      var w := LeadingWord(s);
      [w] + Split(s[|w|..])
  }

  /** Python's `sep.join(parts)`. */
  function Join(parts: seq<string>, sep: string): string {
    if |parts| == 0 then ""
    else if |parts| == 1 then parts[0]
    else parts[0] + sep + Join(parts[1..], sep)
  }

  /** The pieces written one after the other, as a loop of `out += piece` does. */
  function Concat(pieces: seq<string>): string {
    if pieces == [] then "" else Concat(pieces[..|pieces| - 1]) + pieces[|pieces| - 1]
  }

  /** `piece` is the slice of `s` that starts at `at`. */
  predicate PlacedAt(s: string, at: nat, piece: string) {
    at + |piece| <= |s| && s[at..at + |piece|] == piece
  }

  predicate StartsWith(s: string, prefix: string) {
    |prefix| <= |s| && s[..|prefix|] == prefix
  }

  predicate EndsWith(s: string, suffix: string) {
    |suffix| <= |s| && s[|s| - |suffix|..] == suffix
  }

  /** `pat` occurs somewhere in `s`. */
  predicate Contains(s: string, pat: string) {
    exists p :: 0 <= p <= |s| - |pat| && OccursAt(s, pat, p)
  }

  predicate OccursAt(s: string, pat: string, p: nat)
    requires p + |pat| <= |s|
  {
    s[p..p + |pat|] == pat
  }

  /**
   * Python's `s.replace(pat, "")`: scanning from the left, every
   * non-overlapping occurrence of `pat` is cut out.
   */
  function RemoveAll(s: string, pat: string): string
    requires |pat| > 0
    decreases |s|
  {
    if |s| < |pat| then s
    else if s[..|pat|] == pat then RemoveAll(s[|pat|..], pat)
    else [s[0]] + RemoveAll(s[1..], pat)
  }

  // ---------------------------------------------------------------------------
  // Properties of `Split`

  lemma {:induction false} SplitDropsLeadingSpace(x: string)
    ensures Split(" " + x) == Split(x)
  {
    assert (" " + x)[1..] == x;
  }

  /** `Split` finds no word exactly when the string is all whitespace. */
  lemma {:induction false} SplitEmptyIffBlank(s: string)
    ensures Split(s) == [] <==> AllSpace(s)
    decreases |s|
  {
    if s != [] && IsSpace(s[0]) {
      SplitEmptyIffBlank(s[1..]);
      if AllSpace(s[1..]) {
        forall i | 0 <= i < |s| ensures IsSpace(s[i]) {
          if i > 0 { assert s[i] == s[1..][i - 1]; }
        }
      }
    }
  }

  lemma {:induction false} LeadingWordOfToken(w: string, tail: string)
    requires IsToken(w)
    requires tail == [] || IsSpace(tail[0])
    ensures LeadingWord(w + tail) == w
    decreases |w|
  {
    var s := w + tail;
    if |w| > 1 {
      assert s[1..] == w[1..] + tail;
      LeadingWordOfToken(w[1..], tail);
    } else {
      assert s[1..] == tail;
    }
  }

  /** Each part `Split` returns is a token. */
  lemma {:induction false} SplitTokens(s: string)
    ensures forall i :: 0 <= i < |Split(s)| ==> IsToken(Split(s)[i])
    decreases |s|
  {
    if s != [] {
      if IsSpace(s[0]) {
        SplitTokens(s[1..]);
      } else {
        SplitTokens(s[|LeadingWord(s)|..]);
      }
    }
  }

  /** A token followed by nothing or by whitespace is split off as the first part. */
  lemma {:induction false} SplitCons(w: string, tail: string)
    requires IsToken(w)
    requires tail == [] || IsSpace(tail[0])
    ensures Split(w + tail) == [w] + Split(tail)
  {
    var s := w + tail;
    assert s[0] == w[0];
    LeadingWordOfToken(w, tail);
    assert s[|w|..] == tail;
  }

  lemma JoinCons(w: string, ws: seq<string>, sep: string)
    requires ws != []
    ensures Join([w] + ws, sep) == w + (sep + Join(ws, sep))
  {
    assert ([w] + ws)[1..] == ws;
  }

  lemma {:induction false} SplitJoinCons(w: string, ws: seq<string>)
    requires IsToken(w) && ws != []
    requires Split(Join(ws, " ")) == ws
    ensures Split(Join([w] + ws, " ")) == [w] + ws
  {
    var rest := Join(ws, " ");
    JoinCons(w, ws, " ");
    SplitCons(w, " " + rest);
    SplitDropsLeadingSpace(rest);
  }

  /** Splitting words joined by single spaces gives the words back. */
  lemma {:induction false} SplitJoin(words: seq<string>)
    requires forall i :: 0 <= i < |words| ==> IsToken(words[i])
    ensures Split(Join(words, " ")) == words
    decreases |words|
  {
    if |words| == 1 {
      var w := words[0];
      assert w + "" == w;
      SplitCons(w, "");
    } else if |words| > 1 {
      var w, ws := words[0], words[1..];
      SplitJoin(ws);
      SplitJoinCons(w, ws);
      assert words == [w] + ws;
    }
  }

  // ---------------------------------------------------------------------------
  // Properties of `Concat`

  lemma {:induction false} ConcatAppend(p: seq<string>, q: seq<string>)
    ensures Concat(p + q) == Concat(p) + Concat(q)
    decreases |q|
  {
    if q == [] {
      assert p + q == p;
    } else {
      var q' := q[..|q| - 1];
      assert (p + q)[..|p + q| - 1] == p + q';
      ConcatAppend(p, q');
    }
  }

  lemma ConcatSnoc(pieces: seq<string>, piece: string)
    ensures Concat(pieces + [piece]) == Concat(pieces) + piece
  {
    assert (pieces + [piece])[..|pieces|] == pieces;
  }

  /** One more piece written after a text that already ends with the concatenation. */
  lemma ConcatSnocAfter(prefix: string, pieces: seq<string>, piece: string)
    ensures prefix + Concat(pieces + [piece]) == (prefix + Concat(pieces)) + piece
  {
    ConcatSnoc(pieces, piece);
  }

  /**
   * Piece `k` is the slice of the concatenation between the ends of the
   * pieces before it and of the pieces up to it.
   */
  lemma ConcatPlaced(pieces: seq<string>, k: nat)
    requires k < |pieces|
    ensures |Concat(pieces[..k])| + |pieces[k]| == |Concat(pieces[..k + 1])| <= |Concat(pieces)|
    ensures Concat(pieces)[|Concat(pieces[..k])|..|Concat(pieces[..k + 1])|] == pieces[k]
  {
    var upTo, after := pieces[..k + 1], pieces[k + 1..];
    assert pieces == upTo + after;
    ConcatAppend(upTo, after);
    assert upTo[..k] == pieces[..k];
    var front, a, b := Concat(pieces[..k]), Concat(upTo), Concat(after);
    assert a == front + pieces[k];
    assert (a + b)[|front|..|a|] == a[|front|..|a|];
  }

  /** Appending nothing leaves a text as it is: the branch of an `if` that writes nothing states it. */
  lemma AppendEmpty(s: string)
    ensures s + "" == s
  {
  }

  lemma StartsWithAppend(x: string, y: string, prefix: string)
    requires StartsWith(x, prefix)
    ensures StartsWith(x + y, prefix)
  {
    assert (x + y)[..|prefix|] == x[..|prefix|];
  }

  /**
   * Text `x + p + tail`, where `x` is empty or opens with `hx` and `p` opens
   * with `hp`: when `hx` and `hp` start with different characters, it opens
   * with `hx` exactly when `x` is not empty.
   */
  lemma OptionalHeading(x: string, p: string, tail: string, hx: string, hp: string)
    requires |hx| > 0 && |hp| > 0 && hx[0] != hp[0]
    requires x == [] || StartsWith(x, hx)
    requires StartsWith(p, hp)
    ensures StartsWith(x + p + tail, hx) <==> x != []
    ensures x == [] ==> StartsWith(x + p + tail, hp)
  {
    var s := x + p + tail;
    if x == [] {
      assert s == p + tail;
      StartsWithAppend(p, tail, hp);
      assert s[0] == hp[0];
      if |hx| <= |s| {
        assert s[..|hx|][0] == s[0];
      }
    } else {
      StartsWithAppend(x, p, hx);
      StartsWithAppend(x + p, tail, hx);
    }
  }

  // ---------------------------------------------------------------------------
  // Properties of `RemoveAll`

  /**
   * When `base` itself holds no ".json", `(base + ".json" + rest).replace(".json", "")`
   * is `base` followed by `rest.replace(".json", "")`: no occurrence can
   * straddle the end of `base`, because ".json" has its only dot in front.
   */
  lemma {:induction false} RemoveJsonAfter(base: string, rest: string)
    requires !Contains(base, ".json")
    ensures RemoveAll(base + ".json" + rest, ".json") == base + RemoveAll(rest, ".json")
    decreases |base|
  {
    var pat := ".json";
    var tail := pat + rest;
    assert base + pat + rest == base + tail;
    if base == [] {
      assert base + tail == tail;
      assert tail[..5] == pat && tail[5..] == rest;
      assert RemoveAll(tail, pat) == RemoveAll(rest, pat);
    } else {
      NoJsonAtFront(base, tail);
      NoJsonInRest(base);
      RemoveJsonAfter(base[1..], rest);
      assert base[1..] + pat + rest == base[1..] + tail;
      assert (base + tail)[1..] == base[1..] + tail;
      assert RemoveAll(base + tail, pat) == [base[0]] + RemoveAll(base[1..] + tail, pat);
    }
  }

  /** A text that holds no ".json" cannot start one before a dot that follows it. */
  lemma NoJsonAtFront(base: string, tail: string)
    requires base != [] && !Contains(base, ".json")
    requires |tail| >= 5 && tail[0] == '.'
    ensures (base + tail)[..5] != ".json"
  {
    var pat, s := ".json", base + tail;
    if |base| >= 5 {
      assert s[..5] == base[0..5];
      assert !OccursAt(base, pat, 0);
    } else {
      assert s[|base|] == tail[0];
      assert pat[|base|] != '.';
      assert s[..5][|base|] == s[|base|];
    }
  }

  /** Dropping the first character of a text that holds no ".json" leaves one that holds none. */
  lemma NoJsonInRest(base: string)
    requires base != [] && !Contains(base, ".json")
    ensures !Contains(base[1..], ".json")
  {
    var pat := ".json";
    forall p | 0 <= p <= |base[1..]| - 5
      ensures !OccursAt(base[1..], pat, p)
    {
      assert base[1..][p..p + 5] == base[p + 1..p + 6];
      assert !OccursAt(base, pat, p + 1);
    }
  }

  /** `(base + ".json").replace(".json", "")` is `base` when `base` holds no ".json". */
  lemma RemoveJsonSuffix(base: string)
    requires !Contains(base, ".json")
    ensures RemoveAll(base + ".json", ".json") == base
  {
    RemoveJsonAfter(base, "");
    assert base + ".json" + "" == base + ".json";
  }
}
