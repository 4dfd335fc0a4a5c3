/** Reading and printing the tokens of the Negotiate scheme (section 4 of RFC 4559). */
module Negotiate {
  import opened Wrappers
  import opened Base64
  import opened Text

  const WORD := "negotiate"

  /** Case folding as the regular expression does it: ASCII letters, and the dotted and dotless i. */
  function Fold(c: char): char {
    if 'A' <= c <= 'Z' then (c as int - 'A' as int + 'a' as int) as char
    else if c == '\U{0130}' || c == '\U{0131}' then 'i' else c
  }

  predicate WordAt(s: string, i: nat) {
    i + |WORD| <= |s| && forall k | 0 <= k < |WORD| :: Fold(s[i + k]) == WORD[k]
  }

  /** The leftmost occurrence of the word at or after a position. */
  function FindWord(s: string, from: nat): (r: Option<nat>)
    ensures r.Some? ==> from <= r.value && r.value + |WORD| <= |s|
    decreases |s| - from
  {
    if from + |WORD| > |s| then None
    else if WordAt(s, from) then Some(from)
    else FindWord(s, from + 1)
  }

  function SkipSpace(s: string): string {
    if s != "" && Space(s[0]) then SkipSpace(s[1..]) else s
  }

  function UntilComma(s: string): string {
    if s == "" || s[0] == ',' then "" else [s[0]] + UntilComma(s[1..])
  }

  /** The text that the pattern's group captures. */
  function FindAuth(header: string): Option<string> {
    match FindWord(header, 0)
    case None => None
    case Some(i) => Some(UntilComma(SkipSpace(header[i + |WORD|..])))
  }

  datatype Challenge = NoChallenge | Malformed | Token(token: Bytes)

  /** The token offered in a WWW-Authenticate header; a bare challenge offers the empty token. */
  function NegotiateValue(header: Option<string>): Challenge {
    match header
    case None => NoChallenge
    case Some(text) =>
      match FindAuth(text)
      case None => NoChallenge
      case Some(group) =>
        match Decode(group)
        case None => Malformed
        case Some(token) => Token(token)
  }

  function HeaderValue(token: Bytes): string {
    "Negotiate " + Encode(token)
  }

  /** No occurrence can straddle the start of another: the word begins with its only n. */
  lemma NoStraddle(before: string, rest: string, from: nat)
    requires from < |before| < from + |WORD| && WordAt(rest, 0)
    ensures !WordAt(before + rest, from)
  {
    var k := |before| - from;
    assert Fold(rest[0 + 0]) == WORD[0];
    assert from + |WORD| <= |before + rest| ==> (before + rest)[from + k] == rest[0] && WORD[k] != WORD[0];
  }

  lemma WordInside(before: string, rest: string, from: nat)
    requires from + |WORD| <= |before| && !WordAt(before, from)
    ensures !WordAt(before + rest, from)
  {
    var k :| 0 <= k < |WORD| && Fold(before[from + k]) != WORD[k];
    assert (before + rest)[from + k] == before[from + k];
  }

  lemma WordBehind(before: string, rest: string)
    requires WordAt(rest, 0)
    ensures WordAt(before + rest, |before|)
  {
    forall k | 0 <= k < |WORD|
      ensures Fold((before + rest)[|before| + k]) == WORD[k]
    {
      assert Fold(rest[0 + k]) == WORD[k];
    }
  }

  lemma {:induction false} FindWordAfter(before: string, rest: string, from: nat)
    requires from <= |before| && WordAt(rest, 0)
    requires forall i: nat | from <= i :: !WordAt(before, i)
    ensures FindWord(before + rest, from) == Some(|before|)
    decreases |before| - from
  {
    if from == |before| {
      WordBehind(before, rest);
    } else {
      if |before| < from + |WORD| {
        NoStraddle(before, rest, from);
      } else {
        WordInside(before, rest, from);
      }
      FindWordAfter(before, rest, from + 1);
    }
  }

  lemma {:induction false} UntilCommaStops(s: string, rest: string)
    requires forall c | c in s :: c != ','
    requires rest == "" || rest[0] == ','
    ensures UntilComma(s + rest) == s
  {
    if s == "" {
      assert s + rest == rest;
    } else {
      assert (s + rest)[1..] == s[1..] + rest;
      assert s[0] in s && forall c | c in s[1..] :: c in s;
      UntilCommaStops(s[1..], rest);
    }
  }

  lemma {:induction false} SpaceIsSkipped(space: string, text: string)
    requires forall c | c in space :: Space(c)
    requires text == "" || !Space(text[0])
    ensures SkipSpace(space + text) == text
  {
    if space == "" {
      assert space + text == text;
    } else {
      assert (space + text)[1..] == space[1..] + text;
      assert space[0] in space && forall c | c in space[1..] :: c in space;
      SpaceIsSkipped(space[1..], text);
    }
  }

  /** A letter of the scheme's name in either case; ignoring case, Python also takes the dotted and the dotless i. */
  predicate Letter(k: nat, c: char)
    requires k < 9
  {
    c == "negotiate"[k] || c == "NEGOTIATE"[k] || (k == 5 && (c == '\U{0130}' || c == '\U{0131}'))
  }

  predicate Name(w: string) {
    |w| == 9 && forall k | 0 <= k < 9 :: Letter(k, w[k])
  }

  predicate NamedAt(s: string, i: nat) {
    i + 9 <= |s| && Name(s[i..i + 9])
  }

  lemma LetterIsFolded(k: nat, c: char)
    requires k < 9
    ensures Letter(k, c) <==> Fold(c) == WORD[k]
  {
  }

  lemma WordAtIffNamed(s: string, i: nat)
    ensures WordAt(s, i) <==> NamedAt(s, i)
  {
    if i + 9 <= |s| {
      var w := s[i..i + 9];
      forall k | 0 <= k < 9
        ensures w[k] == s[i + k] && (Letter(k, w[k]) <==> Fold(s[i + k]) == WORD[k])
      {
        LetterIsFolded(k, w[k]);
      }
    }
  }

  /** Nowhere in the text does the name occur. */
  ghost predicate Nameless(s: string) {
    forall i: nat :: !NamedAt(s, i)
  }

  lemma GroupIsCaptured(before: string, w: string, space: string, group: string, rest: string)
    requires Nameless(before) && Name(w) && forall c | c in space :: Space(c)
    requires (group == "" || !Space(group[0])) && forall c | c in group :: c != ','
    requires rest == "" || rest[0] == ','
    ensures FindAuth(before + (w + (space + (group + rest)))) == Some(group)
  {
    var tail := w + (space + (group + rest));
    assert tail[0..0 + 9] == w;
    WordAtIffNamed(tail, 0);
    forall i: nat
      ensures !WordAt(before, i)
    {
      WordAtIffNamed(before, i);
    }
    FindWordAfter(before, tail, 0);
    assert (before + tail)[|before| + |WORD|..] == space + (group + rest);
    assert group + rest != "" ==> (group + rest)[0] == if group != "" then group[0] else rest[0];
    SpaceIsSkipped(space, group + rest);
    UntilCommaStops(group, rest);
  }

  /** A challenge is read among others, with its name in any case and any white space behind it: what stands before the
      next comma is decoded, and is malformed exactly if that fails. */
  lemma ChallengeIsRead(before: string, w: string, space: string, group: string, rest: string)
    requires Nameless(before) && Name(w) && forall c | c in space :: Space(c)
    requires (group == "" || !Space(group[0])) && forall c | c in group :: c != ','
    requires rest == "" || rest[0] == ','
    ensures NegotiateValue(Some(before + w + space + group + rest)) ==
      if Decode(group) == None then Malformed else Token(Decode(group).value)
  {
    assert before + w + space + group + rest == before + (w + (space + (group + rest)));
    GroupIsCaptured(before, w, space, group, rest);
  }

  lemma {:induction false} FoundFrom(s: string, from: nat)
    ensures FindWord(s, from) == None <==> forall i: nat | from <= i :: !WordAt(s, i)
    decreases |s| - from
  {
    if from + |WORD| <= |s| && !WordAt(s, from) {
      FoundFrom(s, from + 1);
    }
  }

  /** There is no challenge exactly if the header is missing or the name does not occur in it. */
  lemma NoChallengeIffNameless(header: Option<string>)
    ensures NegotiateValue(header) == NoChallenge <==> header == None || Nameless(header.value)
  {
    if header.Some? {
      var s := header.value;
      FoundFrom(s, 0);
      forall i: nat
        ensures WordAt(s, i) <==> NamedAt(s, i)
      {
        WordAtIffNamed(s, i);
      }
    }
  }

  /** Tokens round trip: whatever is printed is read back, also among other challenges. */
  lemma TokenRoundTrip(before: string, t: Bytes, rest: string)
    requires Nameless(before)
    requires rest == "" || rest[0] == ','
    ensures NegotiateValue(Some(before + HeaderValue(t) + rest)) == Token(t)
  {
    assert before + HeaderValue(t) + rest == before + "Negotiate" + " " + Encode(t) + rest;
    EncodePrints(t);
    assert Encode(t) != "" ==> Encode(t)[0] in Encode(t);
    ChallengeIsRead(before, "Negotiate", " ", Encode(t), rest);
    DecodeEncode(t);
  }
}
