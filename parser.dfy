/** Reading the directives embedded in a narrative outcome text.

    Stat directives follow the pattern of main.js:304, scanned left to
    right with the global flag: an opening parenthesis, optional blanks, a
    signed decimal number, optional blanks, a word (the stat), optional
    blanks, a closing parenthesis, and optionally blanks followed by
    `[type=word]`. The matcher below reproduces the regular expression's
    greedy choices and backtracking exactly, including the case where the
    stat word is taken from the number's last digit ("(+10)" reads as +1
    of stat "0").

    Travel requests follow main.js:481: the first `(Travel to X)`, with the
    words matched case-insensitively and X running to the next `)`. */
module OutcomeParser {
  import opened Common
  import opened Text

  /** One parsed directive; the stat and damage type are lower-cased. */
  datatype Token = Token(value: int, stat: string, damageType: Option<string>)

  /** The end of the longest run, starting at `i`, of characters with property `P`. */
  function RunEnd(s: string, i: nat, P: char -> bool): (e: nat)
    requires i <= |s|
    ensures i <= e <= |s|
    ensures forall k :: i <= k < e ==> P(s[k])
    ensures e == |s| || !P(s[e])
    decreases |s| - i
  {
    if i < |s| && P(s[i]) then RunEnd(s, i + 1, P) else i
  }

  /** A run is determined by where it must stop. */
  lemma RunEndIs(s: string, i: nat, P: char -> bool, e: nat)
    requires i <= e <= |s|
    requires forall k :: i <= k < e ==> P(s[k])
    requires e == |s| || !P(s[e])
    ensures RunEnd(s, i, P) == e
  {
  }

  predicate IsSign(c: char) {
    c == '+' || c == '-'
  }

  /** `parseInt` of a sign followed by decimal digits. */
  function SignedValue(sign: char, digits: string): int
    requires AllDigits(digits)
  {
    if sign == '-' then 0 - DigitsValue(digits) else DigitsValue(digits)
  }

  predicate IsWord(w: string) {
    w != [] && forall i :: 0 <= i < |w| ==> IsWordChar(w[i])
  }

  /** The optional `\s*\[type=(\w+)\]` group after the closing parenthesis
      at `end`: the lower-cased type and the new end when it is present. */
  function TypeSuffix(s: string, end: nat): (r: (Option<string>, nat))
    requires end <= |s|
    ensures end <= r.1 <= |s|
    ensures r.0.None? ==> r.1 == end
    ensures r.0.Some? ==> IsWord(r.0.value) && IsLowerCase(r.0.value)
  {
    var t0 := RunEnd(s, end, IsSpace);
    if StartsWithAt(s, t0, "[type=") then
      var t1 := t0 + 6;
      var t2 := RunEnd(s, t1, IsWordChar);
      if t2 > t1 && t2 < |s| && s[t2] == ']' then (Some(LowerStr(s[t1..t2])), t2 + 1)
      else (None, end)
    else (None, end)
  }

  /** The part of the expression after the number's sign at `w1`, whose
      digits run to `d1`: the value, the raw stat word and the position
      just past the closing parenthesis. */
  function NumberAndStat(s: string, w1: nat, d1: nat): (m: Option<(int, string, nat)>)
    requires w1 < d1 <= |s| && AllDigits(s[w1 + 1..d1])
    ensures m.Some? ==> d1 < m.value.2 <= |s| && IsWord(m.value.1)
  {
    var d0 := w1 + 1;
    var w2 := RunEnd(s, d1, IsSpace);
    var e := RunEnd(s, w2, IsWordChar);
    if e > w2 then
      // the stat is the word after the number
      var w3 := RunEnd(s, e, IsSpace);
      if w3 < |s| && s[w3] == ')' then Some((SignedValue(s[w1], s[d0..d1]), s[w2..e], w3 + 1))
      else None
    else if d1 - d0 >= 2 && w2 < |s| && s[w2] == ')' then
      // no word follows: backtracking hands the last digit to the stat
      var ds := s[w1 + 1..d1];
      assert IsDigit(ds[|ds| - 1]);
      Some((SignedValue(s[w1], ds[..|ds| - 1]), [ds[|ds| - 1]], w2 + 1))
    else None
  }

  /** The regular expression tried at position `p`: the token and the
      position just past the match, or nothing. */
  function MatchAt(s: string, p: nat): (m: Option<(Token, nat)>)
    requires p <= |s|
    ensures m.Some? ==> p < m.value.1 <= |s|
    ensures m.Some? ==> IsWord(m.value.0.stat) && IsLowerCase(m.value.0.stat)
    ensures m.Some? && m.value.0.damageType.Some? ==>
      IsWord(m.value.0.damageType.value) && IsLowerCase(m.value.0.damageType.value)
  {
    if p == |s| || s[p] != '(' then None
    else
      var w1 := RunEnd(s, p + 1, IsSpace);
      if w1 == |s| || !IsSign(s[w1]) then None
      else
        var d1 := RunEnd(s, w1 + 1, IsDigit);
        if d1 == w1 + 1 then None
        else
          match NumberAndStat(s, w1, d1)
          case None => None
          case Some((v, stat, end)) =>
            var ty := TypeSuffix(s, end);
            Some((Token(v, LowerStr(stat), ty.0), ty.1))
  }

  /** The successive matches of the global scan from position `i`. */
  function TokenizeFrom(s: string, i: nat): (r: seq<Token>)
    requires i <= |s|
    ensures forall k :: 0 <= k < |r| ==> IsWord(r[k].stat) && IsLowerCase(r[k].stat)
    decreases |s| - i
  {
    if i == |s| then []
    else
      match MatchAt(s, i)
      case Some((t, e)) => [t] + TokenizeFrom(s, e)
      case None => TokenizeFrom(s, i + 1)
  }

  /** One step of the scan, seen from a scan that has already collected
      `acc`: a match at `i` appends its token and the scan resumes where it
      ended; otherwise the scan moves one on. */
  lemma TokenizeFromStep(s: string, i: nat, acc: seq<Token>)
    requires i < |s|
    ensures var m := MatchAt(s, i);
      m.Some? ==> acc + TokenizeFrom(s, i) == (acc + [m.value.0]) + TokenizeFrom(s, m.value.1)
    ensures MatchAt(s, i).None? ==> acc + TokenizeFrom(s, i) == acc + TokenizeFrom(s, i + 1)
  {
    var m := MatchAt(s, i);
    if m.Some? {
      assert TokenizeFrom(s, i) == [m.value.0] + TokenizeFrom(s, m.value.1);
      assert acc + ([m.value.0] + TokenizeFrom(s, m.value.1)) == (acc + [m.value.0]) + TokenizeFrom(s, m.value.1);
    }
  }

  function Tokenize(s: string): seq<Token> {
    TokenizeFrom(s, 0)
  }

  /** The `statChangeRegex.exec` loop: a global scan that restarts after
      each match and moves one character on after a failed position. */
  method CollectDirectives(text: string) returns (changes: seq<Token>)
    ensures changes == Tokenize(text)
  {
    changes := [];
    var p := 0;
    while p < |text|
      invariant 0 <= p <= |text|
      invariant changes + TokenizeFrom(text, p) == Tokenize(text)
      decreases |text| - p
    {
      changes, p := ExecStep(text, p, changes);
    }
  }

  /** One `exec` call of the scan from `p`: on a match the token is
      collected and the scan resumes where the match ended, otherwise it
      moves one character on; either way what is collected plus what is
      still to come is unchanged. */
  method ExecStep(text: string, p: nat, acc: seq<Token>) returns (changes: seq<Token>, q: nat)
    requires p < |text|
    ensures p < q <= |text|
    ensures changes + TokenizeFrom(text, q) == acc + TokenizeFrom(text, p)
  {
    var m := MatchAt(text, p);
    TokenizeFromStep(text, p, acc);
    if m.Some? {
      changes := acc + [m.value.0];
      q := m.value.1;
    } else {
      changes := acc;
      q := p + 1;
    }
  }

  /** A token as a narrative writer would put it in an outcome: the number
      with its sign, a blank, the stat, and the type tag if any. */
  function Render(t: Token): string {
    "(" + (if t.value < 0 then "-" + NatToString(-t.value) else "+" + NatToString(t.value))
    + " " + t.stat + ")" + TypeTag(t.damageType)
  }

  function TypeTag(ty: Option<string>): string {
    match ty
    case None => ""
    case Some(x) => "[type=" + x + "]"
  }

  predicate WellFormed(t: Token) {
    IsWord(t.stat) && IsLowerCase(t.stat)
    && (t.damageType.Some? ==> IsWord(t.damageType.value) && IsLowerCase(t.damageType.value))
  }

  lemma SignedNumeral(v: int)
    ensures var sign := if v < 0 then '-' else '+';
      var digits := NatToString(if v < 0 then -v else v);
      SignedValue(sign, digits) == v
  {
    NatToStringRoundTrip(if v < 0 then -v else v);
  }

  lemma TypeSuffixOfTag(s: string, end: nat, x: string)
    requires IsWord(x) && IsLowerCase(x)
    requires end <= |s| && s[end..] == "[type=" + x + "]"
    ensures TypeSuffix(s, end) == (Some(x), |s|)
  {
    var t1 := end + 6;
    RunEndIs(s, end, IsSpace, end);
    assert s[end..end + 6] == "[type=";
    forall k | t1 <= k < t1 + |x| ensures IsWordChar(s[k]) {
      assert s[k] == s[end..][k - end] == x[k - t1];
    }
    assert s[t1 + |x|] == s[end..][6 + |x|] == ']';
    RunEndIs(s, t1, IsWordChar, t1 + |x|);
    assert s[t1..t1 + |x|] == x;
    LowerOfLowerCase(x);
  }

  /** Where the pieces of a rendered directive sit. */
  lemma RenderLayout(t: Token, sign: char, digits: string)
    requires sign == (if t.value < 0 then '-' else '+')
    requires digits == NatToString(if t.value < 0 then -t.value else t.value)
    ensures var s := Render(t);
      && 3 + |digits| + |t.stat| < |s|
      && s[0] == '(' && s[1] == sign && s[2..2 + |digits|] == digits && s[2 + |digits|] == ' '
      && s[3 + |digits|..3 + |digits| + |t.stat|] == t.stat && s[3 + |digits| + |t.stat|] == ')'
      && s[4 + |digits| + |t.stat|..] == TypeTag(t.damageType)
  {
    var s := Render(t);
    var d1 := 2 + |digits|;
    var e := d1 + 1 + |t.stat|;
    var head := "(" + [sign] + digits + " " + t.stat + ")";
    assert s == head + TypeTag(t.damageType);
    assert |head| == e + 1 && head[0] == '(' && head[1] == sign && head[d1] == ' ' && head[e] == ')';
    assert head[2..d1] == digits && head[d1 + 1..e] == t.stat;
    assert s[..e + 1] == head;
  }

  /** The number, the blank and the stat of a rendered directive are read back. */
  lemma ReadDirectiveHead(s: string, sign: char, digits: string, stat: string)
    requires IsSign(sign) && AllDigits(digits) && digits != [] && IsWord(stat)
    requires 3 + |digits| + |stat| < |s|
    requires s[0] == '(' && s[1] == sign && s[2..2 + |digits|] == digits && s[2 + |digits|] == ' '
    requires s[3 + |digits|..3 + |digits| + |stat|] == stat && s[3 + |digits| + |stat|] == ')'
    ensures var d1 := 2 + |digits|; var e := d1 + 1 + |stat|;
      RunEnd(s, 1, IsSpace) == 1 && RunEnd(s, 2, IsDigit) == d1 && RunEnd(s, d1, IsSpace) == d1 + 1
      && RunEnd(s, d1 + 1, IsWordChar) == e && RunEnd(s, e, IsSpace) == e
  {
    var d1 := 2 + |digits|;
    var e := d1 + 1 + |stat|;
    RunEndIs(s, 1, IsSpace, 1);
    forall k | 2 <= k < d1 ensures IsDigit(s[k]) {
      assert s[k] == s[2..d1][k - 2];
    }
    RunEndIs(s, 2, IsDigit, d1);
    RunEndIs(s, d1, IsSpace, d1 + 1);
    forall k | d1 + 1 <= k < e ensures IsWordChar(s[k]) {
      assert s[k] == s[d1 + 1..e][k - d1 - 1];
    }
    RunEndIs(s, d1 + 1, IsWordChar, e);
    RunEndIs(s, e, IsSpace, e);
  }

  /** The matcher on a directive laid out as `(<sign><digits> <stat>)` + rest. */
  lemma MatchWordDirective(s: string, sign: char, digits: string, t: Token)
    requires IsSign(sign) && AllDigits(digits) && digits != [] && IsWord(t.stat) && IsLowerCase(t.stat)
    requires 3 + |digits| + |t.stat| < |s|
    requires s[0] == '(' && s[1] == sign && s[2..2 + |digits|] == digits && s[2 + |digits|] == ' '
    requires s[3 + |digits|..3 + |digits| + |t.stat|] == t.stat && s[3 + |digits| + |t.stat|] == ')'
    requires SignedValue(sign, digits) == t.value
    requires TypeSuffix(s, 4 + |digits| + |t.stat|) == (t.damageType, |s|)
    ensures MatchAt(s, 0) == Some((t, |s|))
  {
    MatchAtOpening(s, sign, digits, t.stat);
    LowerOfLowerCase(t.stat);
    assert Token(t.value, LowerStr(t.stat), t.damageType) == t;
  }

  /** The matcher at a directive laid out as `(<sign><digits> <stat>)`:
      the signed number, the lower-cased stat and the type suffix after
      the closing parenthesis. */
  lemma MatchAtOpening(s: string, sign: char, digits: string, stat: string)
    requires IsSign(sign) && AllDigits(digits) && digits != [] && IsWord(stat)
    requires 3 + |digits| + |stat| < |s|
    requires s[0] == '(' && s[1] == sign && s[2..2 + |digits|] == digits && s[2 + |digits|] == ' '
    requires s[3 + |digits|..3 + |digits| + |stat|] == stat && s[3 + |digits| + |stat|] == ')'
    ensures var ty := TypeSuffix(s, 4 + |digits| + |stat|);
      MatchAt(s, 0) == Some((Token(SignedValue(sign, digits), LowerStr(stat), ty.0), ty.1))
  {
    ReadDirectiveHead(s, sign, digits, stat);
    HeadNumberAndStat(s, sign, digits, stat);
    MatchAtNumber(s, 2 + |digits|, SignedValue(sign, digits), stat, 4 + |digits| + |stat|);
  }

  /** The matcher at an opening parenthesis directly followed by a sign
      and a run of digits gives whatever the number and stat reader gives,
      with the type suffix after it. */
  lemma MatchAtNumber(s: string, d1: nat, v: int, stat: string, end: nat)
    requires 2 < d1 <= |s| && s[0] == '(' && IsSign(s[1])
    requires RunEnd(s, 1, IsSpace) == 1 && RunEnd(s, 2, IsDigit) == d1 && AllDigits(s[2..d1])
    requires NumberAndStat(s, 1, d1) == Some((v, stat, end))
    ensures MatchAt(s, 0) == Some((Token(v, LowerStr(stat), TypeSuffix(s, end).0), TypeSuffix(s, end).1))
  {
  }

  lemma HeadNumberAndStat(s: string, sign: char, digits: string, stat: string)
    requires IsSign(sign) && AllDigits(digits) && digits != [] && IsWord(stat)
    requires 3 + |digits| + |stat| < |s|
    requires s[0] == '(' && s[1] == sign && s[2..2 + |digits|] == digits && s[2 + |digits|] == ' '
    requires s[3 + |digits|..3 + |digits| + |stat|] == stat && s[3 + |digits| + |stat|] == ')'
    ensures AllDigits(s[2..2 + |digits|])
    ensures NumberAndStat(s, 1, 2 + |digits|) == Some((SignedValue(sign, digits), stat, 4 + |digits| + |stat|))
  {
    ReadDirectiveHead(s, sign, digits, stat);
  }

  lemma TypeSuffixOfTypeTag(s: string, end: nat, ty: Option<string>)
    requires ty.Some? ==> IsWord(ty.value) && IsLowerCase(ty.value)
    requires end <= |s| && s[end..] == TypeTag(ty)
    ensures TypeSuffix(s, end) == (ty, |s|)
  {
    if ty.Some? {
      TypeSuffixOfTag(s, end, ty.value);
    } else {
      RunEndIs(s, end, IsSpace, end);
    }
  }

  lemma MatchLaidOut(s: string, t: Token, sign: char, digits: string)
    requires WellFormed(t)
    requires IsSign(sign) && AllDigits(digits) && digits != [] && SignedValue(sign, digits) == t.value
    requires 3 + |digits| + |t.stat| < |s|
    requires s[0] == '(' && s[1] == sign && s[2..2 + |digits|] == digits && s[2 + |digits|] == ' '
    requires s[3 + |digits|..3 + |digits| + |t.stat|] == t.stat && s[3 + |digits| + |t.stat|] == ')'
    requires s[4 + |digits| + |t.stat|..] == TypeTag(t.damageType)
    ensures MatchAt(s, 0) == Some((t, |s|))
  {
    TypeSuffixOfTypeTag(s, 4 + |digits| + |t.stat|, t.damageType);
    MatchWordDirective(s, sign, digits, t);
  }

  lemma MatchRendered(t: Token)
    requires WellFormed(t)
    ensures MatchAt(Render(t), 0) == Some((t, |Render(t)|))
  {
    var sign := if t.value < 0 then '-' else '+';
    var digits := NatToString(if t.value < 0 then -t.value else t.value);
    SignedNumeral(t.value);
    RenderLayout(t, sign, digits);
    MatchLaidOut(Render(t), t, sign, digits);
  }

  /** Reading a rendered directive gives back exactly that directive. */
  lemma RenderRoundTrip(t: Token)
    requires WellFormed(t)
    ensures Tokenize(Render(t)) == [t]
  {
    var s := Render(t);
    MatchRendered(t);
    assert TokenizeFrom(s, |s|) == [];
    assert TokenizeFrom(s, 0) == [t] + TokenizeFrom(s, |s|);
  }

  /** A directive with no word after the number borrows its last digit as
      the stat: "(+10)" is +1 of a stat named "0", and a one-digit "(+5)"
      is not a directive at all. */
  lemma DigitOnlyDirective()
    ensures Tokenize("(+10)") == [Token(1, "0", None)]
    ensures Tokenize("(+5)") == []
  {
    var s := "(+10)";
    RunEndIs(s, 1, IsSpace, 1);
    RunEndIs(s, 2, IsDigit, 4);
    RunEndIs(s, 4, IsSpace, 4);
    RunEndIs(s, 4, IsWordChar, 4);
    RunEndIs(s, 5, IsSpace, 5);
    assert s[2..3] == "1";
    assert DigitsValue("1") == 1 by {
      assert "1"[..0] == [];
    }
    assert NumberAndStat(s, 1, 4) == Some((1, "0", 5));
    assert TypeSuffix(s, 5) == (None, 5);
    assert LowerStr("0") == "0";
    assert MatchAt(s, 0) == Some((Token(1, "0", None), 5));
    assert TokenizeFrom(s, 5) == [];
    var u := "(+5)";
    RunEndIs(u, 1, IsSpace, 1);
    RunEndIs(u, 2, IsDigit, 3);
    RunEndIs(u, 3, IsSpace, 3);
    RunEndIs(u, 3, IsWordChar, 3);
    assert MatchAt(u, 0) == None;
    assert MatchAt(u, 1) == None && MatchAt(u, 2) == None && MatchAt(u, 3) == None;
  }

  /** The literal of the travel request, lower-cased: `Travel to `. */
  const TravelWords: string := "travel to "

  /** `/\(Travel to ([^)]+)\)/i` tried at position `p`: the captured zone text. */
  function TravelAt(s: string, p: nat): (r: Option<string>)
    requires p <= |s|
    ensures r.Some? ==> r.value != [] && forall k :: 0 <= k < |r.value| ==> r.value[k] != ')'
  {
    if p + 11 <= |s| && s[p] == '(' && LowerStr(s[p + 1..p + 11]) == TravelWords then
      var q := RunEnd(s, p + 11, NotCloseParen);
      if q > p + 11 && q < |s| then Some(s[p + 11..q]) else None
    else None
  }

  /** `text.match(...)`: the leftmost travel request from position `i`. */
  function FindTravelFrom(s: string, i: nat): (r: Option<string>)
    requires i <= |s|
    ensures r.Some? ==> exists p :: i <= p <= |s| && TravelAt(s, p) == r
    ensures r.None? ==> forall p :: i <= p <= |s| ==> TravelAt(s, p).None?
    decreases |s| - i
  {
    var here := TravelAt(s, i);
    if here.Some? then here
    else if i == |s| then None
    else FindTravelFrom(s, i + 1)
  }

  /** The request found is the leftmost one: no position before it holds
      a travel request. */
  lemma {:induction false} FindTravelFromLeftmost(s: string, i: nat)
    requires i <= |s|
    ensures var r := FindTravelFrom(s, i);
      r.Some? ==> exists q :: i <= q <= |s| && TravelAt(s, q) == r && forall p :: i <= p < q ==> TravelAt(s, p).None?
    decreases |s| - i
  {
    if TravelAt(s, i).None? && i < |s| {
      FindTravelFromLeftmost(s, i + 1);
      var r := FindTravelFrom(s, i + 1);
      if r.Some? {
        var q :| i + 1 <= q <= |s| && TravelAt(s, q) == r && forall p :: i + 1 <= p < q ==> TravelAt(s, p).None?;
        assert forall p :: i <= p < q ==> TravelAt(s, p).None?;
      }
    }
  }

  function FindTravel(s: string): Option<string> {
    FindTravelFrom(s, 0)
  }

  /** A text that opens with a travel request yields its destination,
      whatever capitalisation the words use and whatever follows. */
  lemma TravelRequestFound(words: string, x: string, rest: string)
    requires |words| == 10 && LowerStr(words) == TravelWords
    requires x != [] && forall k :: 0 <= k < |x| ==> x[k] != ')'
    ensures FindTravel("(" + words + x + ")" + rest) == Some(x)
  {
    var s := "(" + words + x + ")" + rest;
    assert s[1..11] == words;
    forall k | 11 <= k < 11 + |x| ensures NotCloseParen(s[k]) {
      assert s[k] == x[k - 11];
    }
    assert s[11 + |x|] == ')';
    RunEndIs(s, 11, NotCloseParen, 11 + |x|);
    assert s[11..11 + |x|] == x;
  }
}
