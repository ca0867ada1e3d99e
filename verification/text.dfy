/** The text operations the services rely on: trimming, word splitting, lower-casing and joining. How a
    word is lower-cased is a parameter. */
module Text {

  /** `char::is_whitespace`: the Unicode White_Space property. */
  predicate IsWhitespace(c: char) {
    var n := c as int;
    || 9 <= n <= 13 || n == 0x20 || n == 0x85 || n == 0xA0 || n == 0x1680 || 0x2000 <= n <= 0x200A
    || n == 0x2028 || n == 0x2029 || n == 0x202F || n == 0x205F || n == 0x3000
  }

  /** These are 25 characters. */
  lemma WhitespaceIs(c: char)
    ensures IsWhitespace(c) <==> c as int in {
      0x09, 0x0A, 0x0B, 0x0C, 0x0D, 0x20, 0x85, 0xA0, 0x1680, 0x2000, 0x2001, 0x2002, 0x2003, 0x2004, 0x2005, 0x2006,
      0x2007, 0x2008, 0x2009, 0x200A, 0x2028, 0x2029, 0x202F, 0x205F, 0x3000}
  {
  }

  predicate IsWord(w: string) {
    w != [] && forall i :: 0 <= i < |w| ==> !IsWhitespace(w[i])
  }

  /** `text.trim().is_empty()` */
  predicate IsBlank(t: string) {
    forall i :: 0 <= i < |t| ==> IsWhitespace(t[i])
  }

  function TrimStart(t: string): (r: string)
    ensures r != [] ==> !IsWhitespace(r[0])
    ensures IsBlank(t) <==> r == []
    ensures |r| <= |t| && r == t[|t| - |r|..] && IsBlank(t[..|t| - |r|])
  {
    if t == [] then []
    else if IsWhitespace(t[0]) then
      assert IsBlank(t) ==> IsBlank(t[1..]);
      assert IsBlank(t[1..]) ==> IsBlank(t) by {
        if IsBlank(t[1..]) {
          forall i | 0 <= i < |t| ensures IsWhitespace(t[i]) {
            if i > 0 { assert t[i] == t[1..][i - 1]; }
          }
        }
      }
      TrimStart(t[1..])
    else t
  }

  function TrimEnd(t: string): (r: string)
    ensures r <= t && IsBlank(t[|r|..])
    ensures r != [] ==> !IsWhitespace(r[|r| - 1])
    ensures IsBlank(t) ==> r == []
    ensures t != [] && !IsWhitespace(t[0]) ==> r != []
  {
    if t == [] then []
    else if IsWhitespace(t[|t| - 1]) then
      var r := TrimEnd(t[..|t| - 1]);
      assert t[|r|..] == t[..|t| - 1][|r|..] + [t[|t| - 1]];
      r
    else t
  }

  /** Starts and ends with a visible character; empty exactly for a blank text. */
  function Trim(t: string): (r: string)
    ensures r != [] ==> !IsWhitespace(r[0]) && !IsWhitespace(r[|r| - 1])
    ensures IsBlank(t) <==> r == []
    ensures r != [] ==> !IsBlank(r)
  {
    TrimEnd(TrimStart(t))
  }

  /** Only blanks at the two ends are taken away. */
  lemma TrimTakesBlanks(t: string) returns (before: string, after: string)
    ensures IsBlank(before) && IsBlank(after) && t == before + Trim(t) + after
  {
    var rest := TrimStart(t);
    var r := TrimEnd(rest);
    hide IsBlank, TrimStart, TrimEnd;
    before, after := t[..|t| - |rest|], rest[|r|..];
    assert t == before + rest && rest == r + after;
  }

  /** Length of the leading run of visible characters. */
  function WordEnd(t: string): (n: nat)
    ensures n <= |t|
    ensures forall i :: 0 <= i < n ==> !IsWhitespace(t[i])
    ensures n < |t| ==> IsWhitespace(t[n])
  {
    if t == [] || IsWhitespace(t[0]) then 0 else 1 + WordEnd(t[1..])
  }

  /** `split_whitespace` */
  function Words(t: string): (ws: seq<string>)
    ensures forall i :: 0 <= i < |ws| ==> IsWord(ws[i])
    decreases |t|
  {
    if t == [] then []
    else if IsWhitespace(t[0]) then Words(t[1..])
    else [t[..WordEnd(t)]] + Words(t[WordEnd(t)..])
  }

  /** Lower-casing never makes white space or an empty text out of a word. */
  ghost predicate KeepsWords(lower: string -> string) {
    forall w: string :: IsWord(w) ==> IsWord(lower(w))
  }

  function LowerAll(lower: string -> string, ws: seq<string>): (r: seq<string>)
    ensures |r| == |ws|
    ensures forall i :: 0 <= i < |ws| ==> r[i] == lower(ws[i])
  {
    seq(|ws|, i requires 0 <= i < |ws| => lower(ws[i]))
  }

  /** One such function: the ASCII letters. */
  function AsciiLower(t: string): (r: string)
    ensures |r| == |t|
    ensures forall i :: 0 <= i < |t| ==> (IsWhitespace(r[i]) <==> IsWhitespace(t[i]))
  {
    seq(|t|, i requires 0 <= i < |t| => if 'A' <= t[i] <= 'Z' then ((t[i] as int) + 32) as char else t[i])
  }

  function JoinWords(ws: seq<string>): string {
    if ws == [] then []
    else if |ws| == 1 then ws[0]
    else ws[0] + " " + JoinWords(ws[1..])
  }

  /** The form of a phrase that enters the key derivation. */
  function NormalisedPhrase(lower: string -> string, phrase: string): string {
    JoinWords(LowerAll(lower, Words(phrase)))
  }

  /** Two texts that differ only in spacing and in the case of letters. */
  ghost predicate SameLowerWords(lower: string -> string, p: string, q: string) {
    LowerAll(lower, Words(p)) == LowerAll(lower, Words(q))
  }

  lemma {:induction false} WordEndOf(w: string, rest: string)
    requires forall i :: 0 <= i < |w| ==> !IsWhitespace(w[i])
    requires rest != [] ==> IsWhitespace(rest[0])
    ensures WordEnd(w + rest) == |w|
  {
    if w == [] {
      assert w + rest == rest;
    } else {
      assert (w + rest)[1..] == w[1..] + rest;
      WordEndOf(w[1..], rest);
    }
  }

  lemma {:induction false} WordsOfJoin(ws: seq<string>)
    requires forall i :: 0 <= i < |ws| ==> IsWord(ws[i])
    ensures Words(JoinWords(ws)) == ws
  {
    if |ws| == 1 {
      WordEndOf(ws[0], []);
      assert ws[0] + [] == ws[0];
    } else if |ws| > 1 {
      var rest := " " + JoinWords(ws[1..]);
      var t := JoinWords(ws);
      assert t == ws[0] + rest;
      WordEndOf(ws[0], rest);
      assert t[..|ws[0]|] == ws[0] && t[|ws[0]|..] == rest;
      assert rest[1..] == JoinWords(ws[1..]);
      WordsOfJoin(ws[1..]);
    }
  }

  /** In the joined form words are apart by one space, and no white space is elsewhere. */
  lemma {:induction false} JoinedBySingleSpaces(ws: seq<string>, i: nat)
    requires forall j :: 0 <= j < |ws| ==> IsWord(ws[j])
    requires i < |JoinWords(ws)| && IsWhitespace(JoinWords(ws)[i])
    ensures 0 < i < |JoinWords(ws)| - 1 && JoinWords(ws)[i] == ' '
    ensures !IsWhitespace(JoinWords(ws)[i - 1]) && !IsWhitespace(JoinWords(ws)[i + 1])
  {
    if |ws| > 1 {
      var n, rest := |ws[0]|, JoinWords(ws[1..]);
      assert JoinWords(ws) == ws[0] + " " + rest;
      JoinStartsVisible(ws[1..]);
      if i > n {
        assert JoinWords(ws)[i] == rest[i - n - 1];
        JoinedBySingleSpaces(ws[1..], i - n - 1);
        assert JoinWords(ws)[i - 1] == rest[i - n - 2] && JoinWords(ws)[i + 1] == rest[i - n];
      } else {
        assert i == n && JoinWords(ws)[i + 1] == rest[0];
      }
    }
  }

  lemma JoinStartsVisible(ws: seq<string>)
    requires ws != [] && IsWord(ws[0])
    ensures JoinWords(ws) != [] && !IsWhitespace(JoinWords(ws)[0])
  {
  }

  /** Splitting depends only on where whitespace separates the text. */
  lemma {:induction false} WordsOfSpaced(a: string, c: char, b: string)
    requires IsWhitespace(c)
    ensures Words(a + [c] + b) == Words(a) + Words(b)
    decreases |a|
  {
    var t := a + [c] + b;
    if a == [] {
      assert t[1..] == b;
    } else if IsWhitespace(a[0]) {
      assert t[1..] == a[1..] + [c] + b;
      WordsOfSpaced(a[1..], c, b);
    } else {
      var n := WordEnd(a);
      assert t == a[..n] + (a[n..] + [c] + b);
      WordEndOf(a[..n], a[n..] + [c] + b);
      assert t[n..] == a[n..] + [c] + b;
      assert t[..n] == a[..n];
      WordsOfSpaced(a[n..], c, b);
    }
  }

  /** The normal form identifies exactly the retypings of a phrase; where lower-casing is idempotent, it
      is stable. */
  lemma NormalFormIsComplete(lower: string -> string, p: string, q: string)
    requires KeepsWords(lower)
    ensures NormalisedPhrase(lower, p) == NormalisedPhrase(lower, q) <==> SameLowerWords(lower, p, q)
    ensures (forall w: string :: lower(lower(w)) == lower(w)) ==>
      NormalisedPhrase(lower, NormalisedPhrase(lower, p)) == NormalisedPhrase(lower, p)
  {
    WordsOfJoin(LowerAll(lower, Words(p)));
    WordsOfJoin(LowerAll(lower, Words(q)));
    if forall w: string :: lower(lower(w)) == lower(w) {
      assert LowerAll(lower, LowerAll(lower, Words(p))) == LowerAll(lower, Words(p));
    }
  }
}
