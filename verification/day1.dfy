/** Day 1: calibration values (src/bin/day1.rs). Each line yields its
    first and last digit; part 2 also reads the digits spelled out as
    words. The calibration value is the two digits written side by side. */
module Day1 {
  import opened Common

  type Digit = x: nat | x < 10

  /** The parsed line: its first and last digit (`Input`). */
  datatype Input = Input(first: Digit, last: Digit)

  predicate IsAsciiDigit(c: char)
  {
    '0' <= c <= '9'
  }

  function DigitValue(c: char): (d: Digit)
    requires IsAsciiDigit(c)
  {
    (c as int - '0' as int)
  }

  function DigitChar(d: Digit): (c: char)
    ensures IsAsciiDigit(c) && DigitValue(c) == d
  {
    ('0' as int + d) as char
  }

  // ---------------------------------------------------------------------
  // Part 1

  /** The index of the first ASCII digit at or after `from`. */
  function FirstDigitFrom(line: string, from: nat): (r: Option<nat>)
    requires from <= |line|
    ensures r.None? <==> forall i :: from <= i < |line| ==> !IsAsciiDigit(line[i])
    ensures r.Some? ==> from <= r.value < |line| && IsAsciiDigit(line[r.value])
                        && forall i :: from <= i < r.value ==> !IsAsciiDigit(line[i])
    decreases |line| - from
  {
    if from == |line| then None
    else if IsAsciiDigit(line[from]) then Some(from)
    else FirstDigitFrom(line, from + 1)
  }

  /** The index of the last ASCII digit before `upto` (the `rev().find`). */
  function LastDigitBefore(line: string, upto: nat): (r: Option<nat>)
    requires upto <= |line|
    ensures r.None? <==> forall i :: 0 <= i < upto ==> !IsAsciiDigit(line[i])
    ensures r.Some? ==> r.value < upto && IsAsciiDigit(line[r.value])
                        && forall i :: r.value < i < upto ==> !IsAsciiDigit(line[i])
  {
    if upto == 0 then None
    else if IsAsciiDigit(line[upto - 1]) then Some(upto - 1)
    else LastDigitBefore(line, upto - 1)
  }

  /** `parse_line`: the first and the last ASCII digit of the line; a line
      without a digit is an error (the source's `unwrap` panics). */
  function ParseLine(line: string): (r: Option<Input>)
    ensures r.None? <==> forall i :: 0 <= i < |line| ==> !IsAsciiDigit(line[i])
    ensures r.Some? ==> exists i, j :: 0 <= i <= j < |line|
                          && IsAsciiDigit(line[i]) && DigitValue(line[i]) == r.value.first
                          && IsAsciiDigit(line[j]) && DigitValue(line[j]) == r.value.last
                          && (forall k :: 0 <= k < i ==> !IsAsciiDigit(line[k]))
                          && (forall k :: j < k < |line| ==> !IsAsciiDigit(line[k]))
  {
    var f := FirstDigitFrom(line, 0);
    if f.None? then None
    else
      var l := LastDigitBefore(line, |line|);
      assert l.Some? && f.value <= l.value;
      Some(Input(DigitValue(line[f.value]), DigitValue(line[l.value])))
  }

  // ---------------------------------------------------------------------
  // Part 2

  /** The eighteen tokens of `parse_line_2`, in the source's order. */
  const Tokens: seq<string> := ["1", "2", "3", "4", "5", "6", "7", "8", "9",
    "one", "two", "three", "four", "five", "six", "seven", "eight", "nine"]

  /** `match_word`: the value of a token; anything else is an error (the
      source panics). */
  function MatchWord(word: string): (r: Option<Digit>)
    ensures r.Some? ==> 1 <= r.value <= 9
  {
    match word
    case "1" => Some(1) case "one" => Some(1)
    case "2" => Some(2) case "two" => Some(2)
    case "3" => Some(3) case "three" => Some(3)
    case "4" => Some(4) case "four" => Some(4)
    case "5" => Some(5) case "five" => Some(5)
    case "6" => Some(6) case "six" => Some(6)
    case "7" => Some(7) case "seven" => Some(7)
    case "8" => Some(8) case "eight" => Some(8)
    case "9" => Some(9) case "nine" => Some(9)
    case _ => None
  }

  predicate OccursAt(line: string, token: string, p: int)
  {
    0 <= p && p + |token| <= |line| && line[p..p + |token|] == token
  }

  /** `str::find`: the first position at or after `from` where `token`
      starts. */
  function Find(line: string, token: string, from: nat): (r: Option<nat>)
    ensures r.None? <==> forall p :: from <= p ==> !OccursAt(line, token, p)
    ensures r.Some? ==> from <= r.value && OccursAt(line, token, r.value)
                        && forall p :: from <= p < r.value ==> !OccursAt(line, token, p)
    decreases |line| - from
  {
    if from + |token| > |line| then None
    else if OccursAt(line, token, from) then Some(from)
    else Find(line, token, from + 1)
  }

  /** `str::rfind`: the last position at or before `upto` where `token`
      starts. */
  function RFind(line: string, token: string, upto: int): (r: Option<nat>)
    ensures r.None? <==> forall p :: p <= upto ==> !OccursAt(line, token, p)
    ensures r.Some? ==> r.value <= upto && OccursAt(line, token, r.value)
                        && forall p :: r.value < p <= upto ==> !OccursAt(line, token, p)
    decreases upto + 1
  {
    if upto < 0 then None
    else if OccursAt(line, token, upto) then Some(upto)
    else RFind(line, token, upto - 1)
  }

  /** Where the search of `parse_line_2` looks for a token: its first
      occurrence, or with `last` its last one. */
  function Position(line: string, token: string, last: bool): Option<nat>
  {
    if last then RFind(line, token, |line|) else Find(line, token, 0)
  }

  /** The `filter_map` of `parse_line_2`: each token that occurs, paired
      with its position, in token order. */
  function Found(line: string, tokens: seq<string>, last: bool): (found: seq<(string, nat)>)
    ensures |found| <= |tokens|
    ensures forall i :: 0 <= i < |found| ==>
      found[i].0 in tokens && Position(line, found[i].0, last) == Some(found[i].1)
  {
    if tokens == [] then []
    else
      var pos := Position(line, tokens[0], last);
      var rest := Found(line, tokens[1..], last);
      if pos.Some? then [(tokens[0], pos.value)] + rest else rest
  }

  /** `min_by_key`: the first entry with the least position. */
  function MinByKey(xs: seq<(string, nat)>): (m: (string, nat))
    requires |xs| > 0
    ensures m in xs
    ensures forall i :: 0 <= i < |xs| ==> m.1 <= xs[i].1
    ensures exists i :: 0 <= i < |xs| && xs[i] == m && forall j :: 0 <= j < i ==> xs[j].1 > m.1
  {
    if |xs| == 1 then xs[0]
    else
      var front := xs[..|xs| - 1];
      var m := MinByKey(front);
      assert forall i :: 0 <= i < |front| ==> front[i] == xs[i];
      if xs[|xs| - 1].1 < m.1 then xs[|xs| - 1] else m
  }

  /** `max_by_key`: the last entry with the greatest position. */
  function MaxByKey(xs: seq<(string, nat)>): (m: (string, nat))
    requires |xs| > 0
    ensures m in xs
    ensures forall i :: 0 <= i < |xs| ==> xs[i].1 <= m.1
    ensures exists i :: 0 <= i < |xs| && xs[i] == m && forall j :: i < j < |xs| ==> xs[j].1 < m.1
  {
    if |xs| == 1 then xs[0]
    else
      var front := xs[..|xs| - 1];
      var m := MaxByKey(front);
      assert forall i :: 0 <= i < |front| ==> front[i] == xs[i];
      if xs[|xs| - 1].1 >= m.1 then xs[|xs| - 1] else m
  }

  /** Some token of `tokens` starts at position `p`. */
  predicate SomeTokenAt(line: string, tokens: seq<string>, p: int)
  {
    exists t :: t in tokens && OccursAt(line, t, p)
  }

  /** Every token in the list has a value. */
  predicate AllKnown(tokens: seq<string>)
  {
    forall i :: 0 <= i < |tokens| ==> MatchWord(tokens[i]).Some?
  }

  /** `parse_line_2`: the value of the token that starts first and of the
      token that starts last; a line with no token is an error (the
      source's `unwrap` panics). */
  function ParseLine2(line: string): (r: Option<Input>)
  {
    assert AllKnown(Tokens) by { MatchWordKnowsTokens(); }
    ParseWithTokens(line, Tokens)
  }

  /** The search of `parse_line_2` over a token list that `match_word`
      knows. */
  function ParseWithTokens(line: string, tokens: seq<string>): (r: Option<Input>)
    requires AllKnown(tokens)
  {
    var firsts := Found(line, tokens, false);
    if firsts == [] then None
    else
      var lasts := Found(line, tokens, true);
      var f := MinByKey(firsts);
      assert |lasts| > 0 by {
        FoundComplete(line, tokens, true, f.0);
      }
      var l := MaxByKey(lasts);
      assert MatchWord(f.0).Some? && MatchWord(l.0).Some?;
      Some(Input(MatchWord(f.0).value, MatchWord(l.0).value))
  }

  /** `parse_input` and `parse_input_2`: every line parsed in order by
      the given line parser; a line it rejects is an error (the source
      panics). */
  function ParseLines(lines: seq<string>, parse: string -> Option<Input>): (r: Option<seq<Input>>)
    ensures r.None? <==> exists i :: 0 <= i < |lines| && parse(lines[i]).None?
    ensures r.Some? ==> |r.value| == |lines|
                        && forall i :: 0 <= i < |lines| ==> parse(lines[i]) == Some(r.value[i])
  {
    if lines == [] then Some([])
    else
      match (parse(lines[0]), ParseLines(lines[1..], parse))
      case (Some(x), Some(xs)) => Some([x] + xs)
      case _ => None
  }

  /** Every token that occurs is in the `filter_map`. */
  lemma {:induction false} FoundComplete(line: string, tokens: seq<string>, last: bool, t: string)
    requires t in tokens && Position(line, t, last).Some?
    ensures exists i :: 0 <= i < |Found(line, tokens, last)| && Found(line, tokens, last)[i] == (t, Position(line, t, last).value)
  {
    var found := Found(line, tokens, last);
    FoundCons(line, tokens, last);
    if tokens[0] == t {
      assert found[0] == (t, Position(line, t, last).value);
    } else {
      assert t in tokens[1..];
      FoundComplete(line, tokens[1..], last, t);
      var rest := Found(line, tokens[1..], last);
      var i :| 0 <= i < |rest| && rest[i] == (t, Position(line, t, last).value);
      var head := |found| - |rest|;
      assert found[head + i] == rest[i];
    }
  }

  /** The `filter_map` keeps the first token when it occurs and goes on
      with the rest. */
  lemma FoundCons(line: string, tokens: seq<string>, last: bool)
    requires |tokens| > 0
    ensures var pos := Position(line, tokens[0], last);
            Found(line, tokens, last)
            == (if pos.Some? then [(tokens[0], pos.value)] else []) + Found(line, tokens[1..], last)
  {
    var rest := Found(line, tokens[1..], last);
    assert [] + rest == rest;
  }

  /** An empty `filter_map` means that no token was found. */
  lemma {:induction false} FoundEmpty(line: string, tokens: seq<string>, last: bool)
    requires Found(line, tokens, last) == []
    ensures forall t :: t in tokens ==> Position(line, t, last).None?
  {
    if tokens != [] {
      FoundEmpty(line, tokens[1..], last);
      assert forall t :: t in tokens ==> t == tokens[0] || t in tokens[1..];
    }
  }

  lemma MatchWordKnowsTokens()
    ensures AllKnown(Tokens)
  {
  }
  // ---------------------------------------------------------------------
  // Calibration values

  /** `str::parse::<u32>` on a string of ASCII digits. */
  function ParseDecimal(s: string): (n: nat)
    requires forall i :: 0 <= i < |s| ==> IsAsciiDigit(s[i])
  {
    if s == [] then 0
    else 10 * ParseDecimal(s[..|s| - 1]) + DigitValue(s[|s| - 1])
  }

  /** `format!("{}{}", first, last).parse()`: the two digits written side
      by side and read back as a number. */
  function Calibration(x: Input): nat
  {
    ParseDecimal([DigitChar(x.first), DigitChar(x.last)])
  }

  function Calibrations(inputs: seq<Input>): (cs: seq<int>)
    ensures |cs| == |inputs|
    ensures forall i :: 0 <= i < |inputs| ==> cs[i] == Calibration(inputs[i])
  {
    seq(|inputs|, i requires 0 <= i < |inputs| => Calibration(inputs[i]) as int)
  }

  /** `solve_part1` and `solve_part2`, which are the same sum. */
  function Solve(inputs: seq<Input>): int
  {
    Sum(Calibrations(inputs))
  }

  // ---------------------------------------------------------------------
  // Properties

  /** The written-out-and-parsed value is the two-digit number
      `10 * first + last`, even when the first digit is 0. */
  lemma CalibrationValue(x: Input)
    ensures Calibration(x) == 10 * x.first + x.last
    ensures 0 <= Calibration(x) <= 99
  {
    var s := [DigitChar(x.first), DigitChar(x.last)];
    assert s[..1] == [DigitChar(x.first)] && s[..1][..0] == [];
    assert ParseDecimal(s[..1]) == x.first;
  }

  /** The search finds nothing exactly when no token occurs. */
  lemma ParseNone(line: string, tokens: seq<string>)
    requires AllKnown(tokens)
    ensures ParseWithTokens(line, tokens).None? <==> forall p :: !SomeTokenAt(line, tokens, p)
  {
    var firsts := Found(line, tokens, false);
    if firsts == [] {
      assert ParseWithTokens(line, tokens).None?;
      FoundEmpty(line, tokens, false);
      forall p ensures !SomeTokenAt(line, tokens, p) {
        assert forall t :: t in tokens ==> Find(line, t, 0).None?;
      }
    } else {
      assert ParseWithTokens(line, tokens).Some?;
      assert firsts[0].0 in tokens && OccursAt(line, firsts[0].0, firsts[0].1);
      assert SomeTokenAt(line, tokens, firsts[0].1);
    }
  }

  /** The first digit found is the value of a token that starts where no
      token starts earlier. */
  lemma ParseFirst(line: string, tokens: seq<string>)
    requires AllKnown(tokens) && ParseWithTokens(line, tokens).Some?
    ensures exists t, p :: t in tokens && OccursAt(line, t, p)
              && MatchWord(t) == Some(ParseWithTokens(line, tokens).value.first)
              && (forall q :: q < p ==> !SomeTokenAt(line, tokens, q))
  {
    var f := MinByKey(Found(line, tokens, false));
    forall q, t | t in tokens && OccursAt(line, t, q) ensures f.1 <= q {
      FoundComplete(line, tokens, false, t);
    }
    assert OccursAt(line, f.0, f.1) && MatchWord(f.0) == Some(ParseWithTokens(line, tokens).value.first);
  }

  /** The last digit found is the value of a token that starts where no
      token starts later. */
  lemma ParseLast(line: string, tokens: seq<string>)
    requires AllKnown(tokens) && ParseWithTokens(line, tokens).Some?
    ensures exists t, p :: t in tokens && OccursAt(line, t, p)
              && MatchWord(t) == Some(ParseWithTokens(line, tokens).value.last)
              && (forall q :: q > p ==> !SomeTokenAt(line, tokens, q))
  {
    var l := MaxByKey(Found(line, tokens, true));
    forall q, t | t in tokens && OccursAt(line, t, q) ensures q <= l.1 {
      assert q <= |line|;
      FoundComplete(line, tokens, true, t);
    }
    assert OccursAt(line, l.0, l.1) && MatchWord(l.0) == Some(ParseWithTokens(line, tokens).value.last);
  }

  function Token(k: nat): string
    requires k < |Tokens|
  {
    Tokens[k]
  }

  /** `match_word` knows exactly the eighteen tokens, and a digit and its
      spelled-out word have the same value. */
  lemma MatchWordExactlyTokens(word: string)
    ensures MatchWord(word).Some? <==> word in Tokens
    ensures forall k :: 0 <= k < 9 ==> MatchWord(Token(k)) == Some(k + 1)
    ensures forall k :: 9 <= k < 18 ==> MatchWord(Token(k)) == Some(k - 8)
  {
    MatchWordKnowsTokens();
  }

  /** No two distinct tokens start at the same place, so the ties that
      `min_by_key` and `max_by_key` would break never arise. */
  lemma TokensNeverShareAStart(line: string, t: string, u: string, p: int)
    requires t in Tokens && u in Tokens
    requires OccursAt(line, t, p) && OccursAt(line, u, p)
    ensures t == u
  {
    assert t[0] == line[p] == u[0];
    if |t| > 1 && |u| > 1 {
      assert t[1] == line[p + 1] == u[1];
    }
    TokensPrefixFree(t, u);
  }

  lemma TokensPrefixFree(t: string, u: string)
    requires t in Tokens && u in Tokens
    requires |t| > 0 && |u| > 0 && t[0] == u[0]
    requires |t| > 1 && |u| > 1 ==> t[1] == u[1]
    ensures t == u
  {
    var k :| 0 <= k < |Tokens| && Tokens[k] == t;
    var m :| 0 <= m < |Tokens| && Tokens[m] == u;
    if k < 9 {
      assert m < 9;
    } else {
      assert m >= 9;
    }
  }

  predicate IsLowercase(c: char)
  {
    'a' <= c <= 'z'
  }

  /** A token is a single digit `1`..`9` worth its value, or starts with
      a lowercase letter. */
  predicate DigitOrWord(t: string)
  {
    |t| > 0 &&
    ((|t| == 1 && '1' <= t[0] <= '9' && MatchWord(t) == Some(DigitValue(t[0]))) || IsLowercase(t[0]))
  }

  /** A token list shaped like the source's: digits and words, with every
      digit `1`..`9` among them. */
  predicate DigitsAndWords(tokens: seq<string>)
  {
    (forall t :: t in tokens ==> DigitOrWord(t))
    && forall c: char :: '1' <= c <= '9' ==> [c] in tokens
  }

  lemma TokensAreDigitsAndWords()
    ensures DigitsAndWords(Tokens)
  {
    forall t | t in Tokens ensures DigitOrWord(t) {
      var k :| 0 <= k < |Tokens| && Tokens[k] == t;
      TokenShape(k);
    }
    forall c: char | '1' <= c <= '9' ensures [c] in Tokens {
      var k := c as int - '1' as int;
      assert 0 <= k < 9;
      assert Tokens[k] == [c];
    }
  }

  lemma TokenShape(k: nat)
    requires k < |Tokens|
    ensures DigitOrWord(Token(k))
  {
    if k < 9 {
      assert Token(k) == [('1' as int + k) as char];
      assert MatchWord(Token(k)) == Some(k + 1);
    } else {
      assert IsLowercase(Token(k)[0]);
    }
  }

  /** No token of the list that starts with a lowercase letter occurs
      anywhere in the line: no digit is spelled out in it. */
  predicate NoWordOccurs(line: string, tokens: seq<string>)
  {
    forall t, q :: t in tokens && |t| > 0 && IsLowercase(t[0]) && 0 <= q < |line| ==> !OccursAt(line, t, q)
  }

  /** The line holds no `0`, the one digit that part 2 does not know. */
  predicate NoZero(line: string)
  {
    forall i :: 0 <= i < |line| ==> line[i] != '0'
  }

  /** A line without lowercase letters spells no digit out. */
  lemma NoLowercaseNoWord(line: string, tokens: seq<string>)
    requires forall i :: 0 <= i < |line| ==> !IsLowercase(line[i])
    ensures NoWordOccurs(line, tokens)
  {
    forall t, q | t in tokens && |t| > 0 && IsLowercase(t[0]) && 0 <= q < |line| ensures !OccursAt(line, t, q) {
      assert !IsLowercase(line[q]);
    }
  }

  /** On a line that spells no digit out and holds no `0`, a token
      starts exactly where a digit stands, and is that digit. */
  lemma TokensAreDigits(line: string, tokens: seq<string>, p: int)
    requires DigitsAndWords(tokens)
    requires NoWordOccurs(line, tokens) && NoZero(line)
    ensures SomeTokenAt(line, tokens, p) <==> 0 <= p < |line| && IsAsciiDigit(line[p])
    ensures forall t :: t in tokens && OccursAt(line, t, p) ==> t == [line[p]]
  {
    forall t | t in tokens && OccursAt(line, t, p) ensures t == [line[p]] {
      assert DigitOrWord(t);
      assert t[0] == line[p];
    }
    if 0 <= p < |line| && IsAsciiDigit(line[p]) {
      assert [line[p]] in tokens && line[p..p + 1] == [line[p]];
      assert OccursAt(line, [line[p]], p);
    }
  }

  /** On such a line the first token found is the first digit. */
  lemma FirstTokenIsFirstDigit(line: string, tokens: seq<string>)
    requires AllKnown(tokens) && DigitsAndWords(tokens)
    requires NoWordOccurs(line, tokens) && NoZero(line)
    requires ParseWithTokens(line, tokens).Some? && FirstDigitFrom(line, 0).Some?
    ensures ParseWithTokens(line, tokens).value.first == DigitValue(line[FirstDigitFrom(line, 0).value])
  {
    var i := FirstDigitFrom(line, 0).value;
    ParseFirst(line, tokens);
    var t, p :| t in tokens && OccursAt(line, t, p)
      && MatchWord(t) == Some(ParseWithTokens(line, tokens).value.first)
      && (forall q :: q < p ==> !SomeTokenAt(line, tokens, q));
    TokensAreDigits(line, tokens, p);
    TokensAreDigits(line, tokens, i);
    assert p == i;
  }

  /** On such a line the last token found is the last digit. */
  lemma LastTokenIsLastDigit(line: string, tokens: seq<string>)
    requires AllKnown(tokens) && DigitsAndWords(tokens)
    requires NoWordOccurs(line, tokens) && NoZero(line)
    requires ParseWithTokens(line, tokens).Some? && LastDigitBefore(line, |line|).Some?
    ensures ParseWithTokens(line, tokens).value.last == DigitValue(line[LastDigitBefore(line, |line|).value])
  {
    var j := LastDigitBefore(line, |line|).value;
    ParseLast(line, tokens);
    var t, p :| t in tokens && OccursAt(line, t, p)
      && MatchWord(t) == Some(ParseWithTokens(line, tokens).value.last)
      && (forall q :: q > p ==> !SomeTokenAt(line, tokens, q));
    TokensAreDigits(line, tokens, p);
    TokensAreDigits(line, tokens, j);
    assert p == j;
  }

  /** On a line that spells no digit out and holds no `0`, the two
      parsers agree, whatever other letters it has. (They differ on `0`:
      part 1 reads it as a digit, part 2 does not know it.) */
  lemma PartsAgreeWithoutWords(line: string, tokens: seq<string>)
    requires AllKnown(tokens) && DigitsAndWords(tokens)
    requires NoWordOccurs(line, tokens) && NoZero(line)
    ensures ParseWithTokens(line, tokens) == ParseLine(line)
  {
    forall p ensures SomeTokenAt(line, tokens, p) <==> 0 <= p < |line| && IsAsciiDigit(line[p]) {
      TokensAreDigits(line, tokens, p);
    }
    ParseNone(line, tokens);
    if ParseWithTokens(line, tokens).Some? {
      FirstTokenIsFirstDigit(line, tokens);
      LastTokenIsLastDigit(line, tokens);
    }
  }

  /** The same for `parse_line_2` with its own eighteen tokens. */
  lemma ParseLine2AgreesWithoutWords(line: string)
    requires NoWordOccurs(line, Tokens) && NoZero(line)
    ensures ParseLine2(line) == ParseLine(line)
  {
    MatchWordKnowsTokens();
    TokensAreDigitsAndWords();
    PartsAgreeWithoutWords(line, Tokens);
  }

  /** `parse_line_2` with its own tokens: no result exactly when no token
      occurs; otherwise the first digit is the value of a token with no
      token starting before it, the last one of a token with no token
      starting after it. */
  lemma ParseLine2Spec(line: string)
    ensures ParseLine2(line).None? <==> forall p :: !SomeTokenAt(line, Tokens, p)
    ensures ParseLine2(line).Some? ==>
              exists t, p :: t in Tokens && OccursAt(line, t, p)
                && MatchWord(t) == Some(ParseLine2(line).value.first)
                && (forall q :: q < p ==> !SomeTokenAt(line, Tokens, q))
    ensures ParseLine2(line).Some? ==>
              exists t, p :: t in Tokens && OccursAt(line, t, p)
                && MatchWord(t) == Some(ParseLine2(line).value.last)
                && (forall q :: q > p ==> !SomeTokenAt(line, Tokens, q))
  {
    MatchWordKnowsTokens();
    ParseNone(line, Tokens);
    if ParseLine2(line).Some? {
      ParseFirst(line, Tokens);
      ParseLast(line, Tokens);
    }
  }

  /** The first two letters of the nine spelled-out digits. */
  const WordStarts: set<(char, char)> :=
    {('o', 'n'), ('t', 'w'), ('t', 'h'), ('f', 'o'), ('f', 'i'),
     ('s', 'i'), ('s', 'e'), ('e', 'i'), ('n', 'i')}

  /** Every spelled-out token has at least three letters and starts with
      one of those pairs. */
  lemma WordsStartWithAPair(t: string)
    requires t in Tokens && |t| > 0 && IsLowercase(t[0])
    ensures |t| >= 3 && (t[0], t[1]) in WordStarts
  {
    var k :| 0 <= k < |Tokens| && Tokens[k] == t;
    assert k >= 9 by { TokenShape(k); }
  }

  /** The characters of a token occurring in a line. */
  lemma OccursAtChars(line: string, t: string, q: int)
    ensures OccursAt(line, t, q) ==> forall i :: 0 <= i < |t| ==> line[q + i] == t[i]
  {
  }

  /** A line in which no two neighbouring characters are one of the pairs
      spells no digit out. */
  lemma NoWordByPairs(line: string)
    requires forall q :: 0 <= q && q + 1 < |line| ==> (line[q], line[q + 1]) !in WordStarts
    ensures NoWordOccurs(line, Tokens)
  {
    forall t, q | t in Tokens && |t| > 0 && IsLowercase(t[0]) && 0 <= q < |line|
      ensures !OccursAt(line, t, q)
    {
      WordsStartWithAPair(t);
      OccursAtChars(line, t, q);
    }
  }

  /** A position where no token can start: it holds no digit and does
      not begin one of the pairs. */
  predicate Blank(line: string, q: int)
  {
    0 <= q < |line| ==>
      !IsAsciiDigit(line[q]) && (q + 1 < |line| ==> (line[q], line[q + 1]) !in WordStarts)
  }

  lemma NoTokenAtBlank(line: string, q: int)
    requires Blank(line, q)
    ensures !SomeTokenAt(line, Tokens, q)
  {
    TokensAreDigitsAndWords();
    forall t | t in Tokens ensures !OccursAt(line, t, q) {
      assert DigitOrWord(t);
      if IsLowercase(t[0]) {
        WordsStartWithAPair(t);
      }
      OccursAtChars(line, t, q);
    }
  }

  /** `parse_line_2` takes its first digit from a token occurring where
      no token starts earlier. */
  lemma FirstIsAt(line: string, t: string, p: int)
    requires t in Tokens && OccursAt(line, t, p)
    requires forall q :: 0 <= q < p ==> Blank(line, q)
    ensures ParseLine2(line).Some? && MatchWord(t) == Some(ParseLine2(line).value.first)
  {
    forall q | q < p ensures !SomeTokenAt(line, Tokens, q) {
      NoTokenAtBlank(line, q);
    }
    ParseLine2Spec(line);
    assert SomeTokenAt(line, Tokens, p);
    var u, r :| u in Tokens && OccursAt(line, u, r)
      && MatchWord(u) == Some(ParseLine2(line).value.first)
      && (forall q :: q < r ==> !SomeTokenAt(line, Tokens, q));
    assert SomeTokenAt(line, Tokens, r);
    assert r == p;
    TokensNeverShareAStart(line, t, u, p);
  }

  /** `parse_line_2` takes its last digit from a token occurring where
      no token starts later. */
  lemma LastIsAt(line: string, t: string, p: int)
    requires t in Tokens && OccursAt(line, t, p)
    requires forall q :: p < q < |line| ==> Blank(line, q)
    ensures ParseLine2(line).Some? && MatchWord(t) == Some(ParseLine2(line).value.last)
  {
    forall q | q > p ensures !SomeTokenAt(line, Tokens, q) {
      NoTokenAtBlank(line, q);
    }
    ParseLine2Spec(line);
    assert SomeTokenAt(line, Tokens, p);
    var u, r :| u in Tokens && OccursAt(line, u, r)
      && MatchWord(u) == Some(ParseLine2(line).value.last)
      && (forall q :: q > r ==> !SomeTokenAt(line, Tokens, q));
    assert SomeTokenAt(line, Tokens, r);
    assert r == p;
    TokensNeverShareAStart(line, t, u, p);
  }

  // ---------------------------------------------------------------------
  // Lines of the puzzle's published examples

  /** `treb7uchet`: the only digit is both the first and the last. */
  lemma ExampleSingleDigit(line: string)
    requires line == "treb7uchet"
    ensures ParseLine(line) == Some(Input(7, 7))
    ensures Calibration(ParseLine(line).value) == 77
  {
    assert forall i :: 0 <= i < |line| && i != 4 ==> !IsAsciiDigit(line[i]);
    assert line[4] == '7';
    CalibrationValue(Input(7, 7));
  }

  /** `pqr3stu8vwx` gives 38. */
  lemma ExampleTwoDigits(line: string)
    requires line == "pqr3stu8vwx"
    ensures ParseLine(line) == Some(Input(3, 8))
  {
    assert forall i :: 0 <= i < |line| && i != 3 && i != 7 ==> !IsAsciiDigit(line[i]);
    assert line[3] == '3' && line[7] == '8';
  }

  /** `two1nine` starts with a spelled-out 2 in part 2, where part 1
      would start with the digit 1. */
  lemma ExampleWords(line: string)
    requires line == "two1nine"
    ensures ParseLine2(line).Some? && ParseLine2(line).value.first == 2
    ensures ParseLine(line).Some? && ParseLine(line).value.first == 1
  {
    ExampleWordsDigit(line);
    var two := Token(10);
    assert OccursAt(line, two, 0) && MatchWord(two) == Some(2) by {
      assert two == "two" && line[0..3] == "two";
    }
    FirstIsAt(line, two, 0);
  }

  lemma ExampleWordsDigit(line: string)
    requires line == "two1nine"
    ensures ParseLine(line).Some? && ParseLine(line).value.first == 1
  {
    assert forall i :: 0 <= i < 3 ==> !IsAsciiDigit(line[i]);
    assert line[3] == '1';
  }

  /** `1abc2` gives 12. */
  lemma ExampleOuterDigits(line: string)
    requires line == "1abc2"
    ensures ParseLine(line) == Some(Input(1, 2))
  {
    assert forall i :: 0 < i < 4 ==> !IsAsciiDigit(line[i]);
    assert line[0] == '1' && line[4] == '2';
  }

  /** `a1b2c3d4e5f` gives 15: the digits between are skipped. */
  lemma ExampleManyDigits(line: string)
    requires line == "a1b2c3d4e5f"
    ensures ParseLine(line) == Some(Input(1, 5))
  {
    assert !IsAsciiDigit(line[0]) && !IsAsciiDigit(line[10]);
    assert line[1] == '1' && line[9] == '5';
  }

  /** `treb7uchet` spells no digit out, so part 2 reads it as part 1
      does, although it is full of letters. */
  lemma ExampleSingleDigitBothParts(line: string)
    requires line == "treb7uchet"
    ensures ParseLine2(line) == ParseLine(line) == Some(Input(7, 7))
  {
    NoWordByPairs(line);
    ParseLine2AgreesWithoutWords(line);
    ExampleSingleDigit(line);
  }

  /** Lines that each parse: the whole input parses to their values, in
      order. */
  lemma {:induction false} ParseLinesOf(lines: seq<string>, parse: string -> Option<Input>, inputs: seq<Input>)
    requires |inputs| == |lines|
    requires forall i :: 0 <= i < |lines| ==> parse(lines[i]) == Some(inputs[i])
    ensures ParseLines(lines, parse) == Some(inputs)
  {
    if lines != [] {
      ParseLinesOf(lines[1..], parse, inputs[1..]);
      assert inputs == [inputs[0]] + inputs[1..];
    }
  }

  /** The calibration values of the inputs, one by one, add up to the
      answer. */
  lemma SolveByValues(inputs: seq<Input>, values: seq<int>)
    requires |values| == |inputs|
    requires forall i :: 0 <= i < |inputs| ==> 10 * inputs[i].first + inputs[i].last == values[i]
    ensures Solve(inputs) == Sum(values)
  {
    forall i | 0 <= i < |inputs| ensures Calibrations(inputs)[i] == values[i] {
      CalibrationValue(inputs[i]);
    }
    assert Calibrations(inputs) == values;
  }

  /** The published part 1 example: the four lines give 12, 38, 15 and
      77, which add up to 142. */
  lemma ExamplePart1(lines: seq<string>)
    requires |lines| == 4
    requires lines[0] == "1abc2" && lines[1] == "pqr3stu8vwx"
    requires lines[2] == "a1b2c3d4e5f" && lines[3] == "treb7uchet"
    ensures ParseLines(lines, ParseLine) == Some([Input(1, 2), Input(3, 8), Input(1, 5), Input(7, 7)])
    ensures Solve(ParseLines(lines, ParseLine).value) == 142
  {
    var inputs := [Input(1, 2), Input(3, 8), Input(1, 5), Input(7, 7)];
    forall i | 0 <= i < 4 ensures ParseLine(lines[i]) == Some(inputs[i]) {
      if i == 0 {
        ExampleOuterDigits(lines[0]);
      } else if i == 1 {
        ExampleTwoDigits(lines[1]);
      } else if i == 2 {
        ExampleManyDigits(lines[2]);
      } else {
        ExampleSingleDigit(lines[3]);
      }
    }
    ParseLinesOf(lines, ParseLine, inputs);
    ExamplePart1Sum(inputs);
  }

  lemma ExamplePart1Sum(inputs: seq<Input>)
    requires inputs == [Input(1, 2), Input(3, 8), Input(1, 5), Input(7, 7)]
    ensures Solve(inputs) == 142
  {
    SolveByValues(inputs, [12, 38, 15, 77]);
    SumCons(12, [38, 15, 77]);
    SumOfThree([38, 15, 77]);
    assert [12] + [38, 15, 77] == [12, 38, 15, 77];
  }



  /** `two1nine` gives 29 in part 2. */
  lemma ExampleTwoOneNine(line: string)
    requires line == "two1nine"
    ensures ParseLine2(line) == Some(Input(2, 9))
  {
    assert Token(10) == "two" && line[0..3] == "two";
    assert Token(17) == "nine" && line[4..8] == "nine";
    assert Blank(line, 5) && Blank(line, 6) && Blank(line, 7);
    ParseLine2Between(line, 10, 0, 17, 4, 2, 9);
  }


  /** `eightwothree` gives 83: `eight` and `two` overlap, and the
      earlier one counts. */
  lemma ExampleOverlapFirst(line: string)
    requires line == "eightwothree"
    ensures ParseLine2(line) == Some(Input(8, 3))
  {
    assert Token(16) == "eight" && line[0..5] == "eight";
    assert Token(11) == "three" && line[7..12] == "three";
    assert Blank(line, 8) && Blank(line, 9) && Blank(line, 10) && Blank(line, 11);
    ParseLine2Between(line, 16, 0, 11, 7, 8, 3);
  }


  /** `abcone2threexyz` gives 13. */
  lemma ExampleWordsAround(line: string)
    requires line == "abcone2threexyz"
    ensures ParseLine2(line) == Some(Input(1, 3))
  {
    assert Token(9) == "one" && line[3..6] == "one";
    assert Token(11) == "three" && line[7..12] == "three";
    assert Blank(line, 0) && Blank(line, 1) && Blank(line, 2) && Blank(line, 8) && Blank(line, 9) && Blank(line, 10) && Blank(line, 11) && Blank(line, 12) && Blank(line, 13) && Blank(line, 14);
    ParseLine2Between(line, 9, 3, 11, 7, 1, 3);
  }


  /** `xtwone3four` gives 24. */
  lemma ExampleOverlapInside(line: string)
    requires line == "xtwone3four"
    ensures ParseLine2(line) == Some(Input(2, 4))
  {
    assert Token(10) == "two" && line[1..4] == "two";
    assert Token(12) == "four" && line[7..11] == "four";
    assert Blank(line, 0) && Blank(line, 8) && Blank(line, 9) && Blank(line, 10);
    ParseLine2Between(line, 10, 1, 12, 7, 2, 4);
  }


  /** `4nineeightseven2` gives 42: the outer digits win over the words
      between them. */
  lemma ExampleDigitsOutside(line: string)
    requires line == "4nineeightseven2"
    ensures ParseLine2(line) == Some(Input(4, 2))
  {
    assert Token(3) == "4" && line[0..1] == "4";
    assert Token(1) == "2" && line[15..16] == "2";
    ParseLine2Between(line, 3, 0, 1, 15, 4, 2);
  }


  /** `zoneight234` gives 14. */
  lemma ExampleWordThenDigits(line: string)
    requires line == "zoneight234"
    ensures ParseLine2(line) == Some(Input(1, 4))
  {
    assert Token(9) == "one" && line[1..4] == "one";
    assert Token(3) == "4" && line[10..11] == "4";
    assert Blank(line, 0);
    ParseLine2Between(line, 9, 1, 3, 10, 1, 4);
  }


  /** `7pqrstsixteen` gives 76: `six` counts inside `sixteen`. */
  lemma ExampleWordInsideWord(line: string)
    requires line == "7pqrstsixteen"
    ensures ParseLine2(line) == Some(Input(7, 6))
  {
    assert Token(6) == "7" && line[0..1] == "7";
    assert Token(14) == "six" && line[6..9] == "six";
    assert Blank(line, 7) && Blank(line, 8) && Blank(line, 9) && Blank(line, 10) && Blank(line, 11) && Blank(line, 12);
    ParseLine2Between(line, 6, 0, 14, 6, 7, 6);
  }


  /** The value `match_word` gives the token at index `k` of the list:
      the digits come first and the words after them. */
  function TokenValue(k: nat): Digit
  {
    k % 9 + 1
  }

  /** `parse_line_2` on a line where the token at index `k` occurs at
      `p` with no token starting before, and the token at index `m`
      occurs at `r` with no token starting after. */
  lemma ParseLine2Between(line: string, k: nat, p: int, m: nat, r: int, first: Digit, last: Digit)
    requires TokenValue(k) == first && TokenValue(m) == last
    requires k < |Tokens| && OccursAt(line, Token(k), p)
    requires forall q :: 0 <= q < p ==> Blank(line, q)
    requires m < |Tokens| && OccursAt(line, Token(m), r)
    requires forall q :: r < q < |line| ==> Blank(line, q)
    ensures ParseLine2(line) == Some(Input(first, last))
  {
    TokenValueIs(k);
    TokenValueIs(m);
    FirstIsAt(line, Token(k), p);
    LastIsAt(line, Token(m), r);
  }

  lemma TokenValueIs(k: nat)
    requires k < |Tokens|
    ensures MatchWord(Token(k)) == Some(TokenValue(k))
  {
    MatchWordExactlyTokens(Token(k));
    if k < 9 {
      assert k % 9 == k;
    } else {
      assert k % 9 == k - 9;
    }
  }

  /** The published part 2 example: the seven lines give 29, 83, 13, 24,
      42, 14 and 76, which add up to 281. */
  lemma ExamplePart2(lines: seq<string>)
    requires |lines| == 7
    requires lines[0] == "two1nine" && lines[1] == "eightwothree"
    requires lines[2] == "abcone2threexyz" && lines[3] == "xtwone3four"
    requires lines[4] == "4nineeightseven2" && lines[5] == "zoneight234"
    requires lines[6] == "7pqrstsixteen"
    ensures ParseLines(lines, ParseLine2)
         == Some([Input(2, 9), Input(8, 3), Input(1, 3), Input(2, 4), Input(4, 2), Input(1, 4), Input(7, 6)])
    ensures Solve(ParseLines(lines, ParseLine2).value) == 281
  {
    var inputs := [Input(2, 9), Input(8, 3), Input(1, 3), Input(2, 4), Input(4, 2), Input(1, 4), Input(7, 6)];
    ExamplePart2Lines(lines);
    forall i | 0 <= i < 7 ensures ParseLine2(lines[i]) == Some(inputs[i]) {
      if i < 4 {
        assert i == 0 || i == 1 || i == 2 || i == 3;
      } else {
        assert i == 4 || i == 5 || i == 6;
      }
    }
    ParseLinesOf(lines, ParseLine2, inputs);
    ExamplePart2Sum(inputs);
  }

  /** The published part 2 lines, one by one. */
  lemma ExamplePart2Lines(lines: seq<string>)
    requires |lines| == 7
    requires lines[0] == "two1nine" && lines[1] == "eightwothree"
    requires lines[2] == "abcone2threexyz" && lines[3] == "xtwone3four"
    requires lines[4] == "4nineeightseven2" && lines[5] == "zoneight234"
    requires lines[6] == "7pqrstsixteen"
    ensures ParseLine2(lines[0]) == Some(Input(2, 9)) && ParseLine2(lines[1]) == Some(Input(8, 3))
    ensures ParseLine2(lines[2]) == Some(Input(1, 3)) && ParseLine2(lines[3]) == Some(Input(2, 4))
    ensures ParseLine2(lines[4]) == Some(Input(4, 2)) && ParseLine2(lines[5]) == Some(Input(1, 4))
    ensures ParseLine2(lines[6]) == Some(Input(7, 6))
  {
    ExampleTwoOneNine(lines[0]);
    ExampleOverlapFirst(lines[1]);
    ExampleWordsAround(lines[2]);
    ExampleOverlapInside(lines[3]);
    ExampleDigitsOutside(lines[4]);
    ExampleWordThenDigits(lines[5]);
    ExampleWordInsideWord(lines[6]);
  }

  lemma ExamplePart2Sum(inputs: seq<Input>)
    requires inputs == [Input(2, 9), Input(8, 3), Input(1, 3), Input(2, 4), Input(4, 2), Input(1, 4), Input(7, 6)]
    ensures Solve(inputs) == 281
  {
    SolveByValues(inputs, [29, 83, 13, 24, 42, 14, 76]);
    SumCons(29, [83, 13, 24, 42, 14, 76]);
    SumCons(83, [13, 24, 42, 14, 76]);
    SumFive([13, 24, 42, 14, 76]);
    assert [83] + [13, 24, 42, 14, 76] == [83, 13, 24, 42, 14, 76];
    assert [29] + [83, 13, 24, 42, 14, 76] == [29, 83, 13, 24, 42, 14, 76];
  }


}
