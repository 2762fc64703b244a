/** Serial numbers such as "INV-00042", each generated from the text of the last one. */
module Numbers {
  import opened Wrappers
  import opened Decimal

  datatype Error = ValueError

  predicate StartsWith(s: string, p: string) {
    |p| <= |s| && s[..|p|] == p
  }

  /** `s.replace(p, "")`: left to right, without overlaps. An empty `p` removes nothing. */
  function Remove(s: string, p: string): (r: string)
    ensures |r| <= |s|
    decreases |s|
  {
    if p == "" || s == "" then s
    else if StartsWith(s, p) then Remove(s[|p|..], p)
    else [s[0]] + Remove(s[1..], p)
  }

  predicate Contains(s: string, p: string) {
    exists i :: 0 <= i <= |s| && StartsWith(s[i..], p)
  }

  // ---------- Python's `int(s)` on ASCII text ----------

  predicate IsSpace(c: char) {
    c == ' ' || '\t' <= c <= '\r'
  }

  function Strip(s: string): string {
    if s != "" && IsSpace(s[0]) then Strip(s[1..])
    else if s != "" && IsSpace(s[|s| - 1]) then Strip(s[..|s| - 1])
    else s
  }

  /** Digits with single underscores between them. */
  predicate Grouped(s: string) {
    && s != "" && IsDigit(s[0]) && IsDigit(s[|s| - 1])
    && forall i :: 0 < i < |s| ==> GroupedAt(s, i)
  }

  predicate GroupedAt(s: string, i: nat)
    requires 0 < i < |s|
  {
    IsDigit(s[i]) || (s[i] == '_' && s[i - 1] != '_')
  }

  /** The number that grouped digits spell; the underscores count for nothing. */
  function GroupedValue(s: string): nat {
    if s == "" then 0
    else if IsDigit(s[|s| - 1]) then 10 * GroupedValue(s[..|s| - 1]) + DigitValue(s[|s| - 1])
    else GroupedValue(s[..|s| - 1])
  }

  /** What follows the sign, if there is one. */
  function Body(t: string): string {
    if t != "" && (t[0] == '-' || t[0] == '+') then t[1..] else t
  }

  /** White space around, one sign in front, then grouped digits; every other text raises. */
  function ParseInt(s: string): Result<int, Error> {
    var t := Strip(s);
    var body := Body(t);
    if !Grouped(body) then Err(ValueError)
    else if t != "" && t[0] == '-' then Ok(0 - GroupedValue(body))
    else Ok(GroupedValue(body))
  }

  lemma {:induction false} ValueOfDigits(s: string)
    requires AllDigits(s)
    ensures GroupedValue(s) == ParseNat(s)
  {
    if s != "" {
      ValueOfDigits(s[..|s| - 1]);
    }
  }

  lemma ParseDigits(s: string)
    requires AllDigits(s)
    ensures ParseInt(s) == if s == "" then Err(ValueError) else Ok(ParseNat(s))
  {
    if s != "" {
      assert IsDigit(s[0]) && IsDigit(s[|s| - 1]);
      ValueOfDigits(s);
    }
  }

  lemma {:induction false} StripKeeps(s: string, i: nat)
    requires i < |s| && !IsSpace(s[i])
    ensures s[i] in Strip(s)
    decreases |s|
  {
    if IsSpace(s[0]) {
      assert s[1..][i - 1] == s[i];
      StripKeeps(s[1..], i - 1);
    } else if IsSpace(s[|s| - 1]) {
      assert s[..|s| - 1][i] == s[i];
      StripKeeps(s[..|s| - 1], i);
    }
  }

  lemma GroupedCharacters(s: string, c: char)
    requires Grouped(s) && c in s
    ensures IsDigit(c) || c == '_'
  {
    var i :| 0 <= i < |s| && s[i] == c;
    if i > 0 {
      assert GroupedAt(s, i);
    }
  }

  /**
   A text with any character but digits, white space, signs and underscores raises, and so does one
   without digits.
   */
  lemma OtherTextRaises(s: string)
    requires (forall i :: 0 <= i < |s| ==> !IsDigit(s[i]))
          || (exists i :: 0 <= i < |s| && !IsDigit(s[i]) && !IsSpace(s[i]) && s[i] !in "+-_")
    ensures ParseInt(s) == Err(ValueError)
  {
    if i :| 0 <= i < |s| && !IsDigit(s[i]) && !IsSpace(s[i]) && s[i] !in "+-_" {
      StripKeeps(s, i);
      BadBody(Strip(s), s[i]);
    } else {
      StripAddsNothing(s);
      NoDigitBody(Strip(s));
    }
  }

  lemma BadBody(t: string, c: char)
    requires c in t && !IsDigit(c) && c !in "+-_"
    ensures !Grouped(Body(t))
  {
    assert c in Body(t) by {
      var i :| 0 <= i < |t| && t[i] == c;
      if t[0] == '-' || t[0] == '+' {
        assert "+-_"[0] == '+' && "+-_"[1] == '-';
        assert t[1..][i - 1] == c;
      }
    }
    assert "+-_"[2] == '_';
    assert c != '_';
    if Grouped(Body(t)) {
      GroupedCharacters(Body(t), c);
    }
  }

  lemma NoDigitBody(t: string)
    requires forall i :: 0 <= i < |t| ==> !IsDigit(t[i])
    ensures !Grouped(Body(t))
  {
    if Body(t) != "" {
      assert Body(t)[0] == t[|t| - |Body(t)|];
    }
  }

  lemma {:induction false} StripAddsNothing(s: string)
    requires forall i :: 0 <= i < |s| ==> !IsDigit(s[i])
    ensures forall i :: 0 <= i < |Strip(s)| ==> !IsDigit(Strip(s)[i])
    decreases |s|
  {
    if s != "" && IsSpace(s[0]) {
      StripAddsNothing(s[1..]);
    } else if s != "" && IsSpace(s[|s| - 1]) {
      StripAddsNothing(s[..|s| - 1]);
    }
  }

  /** `str(k).zfill(digits)`: zeros go between the sign and the digits. */
  function Padded(k: int, digits: int): string {
    if k < 0 then "-" + ZFill(StrNat(-k), digits - 1) else ZFill(StrNat(k), digits)
  }

  lemma ParseNegated(z: string)
    requires z != "" && AllDigits(z)
    ensures ParseInt("-" + z) == Ok(0 - ParseNat(z))
  {
    var s := "-" + z;
    assert s[1..] == z && s[0] == '-' && s[|s| - 1] == z[|z| - 1];
    assert IsDigit(z[0]) && IsDigit(z[|z| - 1]);
    ValueOfDigits(z);
  }

  lemma Numeral(k: nat, digits: int) returns (z: string)
    ensures z == ZFill(StrNat(k), digits) && z != "" && AllDigits(z) && ParseNat(z) == k
  {
    z := ZFill(StrNat(k), digits);
    ParseZFill(k, digits);
  }

  /** Reading back any rendered integer, zeros and sign included, gives that integer. */
  lemma ParseUndoesPadding(k: int, digits: int)
    ensures ParseInt(Padded(k, digits)) == Ok(k)
  {
    if k < 0 {
      var z := Numeral(-k, digits - 1);
      assert Padded(k, digits) == "-" + z;
      ParseNegated(z);
    } else {
      var z := Numeral(k, digits);
      assert Padded(k, digits) == z;
      ParseDigits(z);
    }
  }

  function Number(k: int, prefix: string, digits: int): string {
    prefix + Padded(k, digits)
  }

  method GenerateNewNumber(lastNumber: Option<string>, prefix: string, digits: int) returns (r: Result<string, Error>)
    ensures r == NextNumber(lastNumber, prefix, digits)
  {
    var newNumber := 1;
    if lastNumber.Some? && |lastNumber.value| > 0 {
      var last: Result<int, Error>;
      if Contains(lastNumber.value, prefix) {
        last := ParseInt(Remove(lastNumber.value, prefix));
      } else {
        RemoveAbsent(lastNumber.value, prefix);
        last := ParseInt(lastNumber.value);
      }
      if last.Err? {
        return Err(ValueError);
      }
      newNumber := last.value + 1;
    }
    return Ok(Number(newNumber, prefix, digits));
  }

  /**
   The next number after the given text; removing an absent prefix changes nothing, so one case covers
   both branches.
   */
  function NextNumber(lastNumber: Option<string>, prefix: string, digits: int): Result<string, Error> {
    if lastNumber.None? || lastNumber.value == "" then Ok(Number(1, prefix, digits))
    else
      var last := ParseInt(Remove(lastNumber.value, prefix));
      if last.Err? then Err(ValueError) else Ok(Number(last.value + 1, prefix, digits))
  }

  lemma {:induction false} RemoveAbsent(s: string, p: string)
    requires !Contains(s, p)
    ensures Remove(s, p) == s
    decreases |s|
  {
    if p != "" && s != "" {
      assert s[0..] == s;
      forall i | 0 <= i <= |s[1..]|
        ensures !StartsWith(s[1..][i..], p)
      {
        assert s[1..][i..] == s[i + 1..];
      }
      RemoveAbsent(s[1..], p);
    }
  }

  // ---------- Iterating the generator ----------

  /** The prefix is empty, or has a character that is not a digit. */
  predicate Separable(prefix: string) {
    prefix == "" || !AllDigits(prefix)
  }

  lemma DigitsDoNotContain(s: string, prefix: string)
    requires AllDigits(s) && !AllDigits(prefix)
    ensures !Contains(s, prefix)
  {
    var k :| 0 <= k < |prefix| && !IsDigit(prefix[k]);
    forall i | 0 <= i <= |s|
      ensures !StartsWith(s[i..], prefix)
    {
      assert forall j :: 0 <= j < |s[i..]| ==> IsDigit(s[i..][j]);
      assert |prefix| <= |s[i..]| ==> s[i..][..|prefix|][k] == s[i..][k];
    }
  }

  /** The prefix in front goes first, and the rest is then searched for more of it. */
  lemma RemoveInFront(z: string, prefix: string)
    requires prefix != ""
    ensures Remove(prefix + z, prefix) == Remove(z, prefix)
  {
    var s := prefix + z;
    assert s[..|prefix|] == prefix && s[|prefix|..] == z;
  }

  /** What the generator makes of a text that is a string of digits once the prefix is gone. */
  lemma NextOfDigits(s: string, rest: string, prefix: string, digits: int)
    requires s != "" && rest == Remove(s, prefix) && AllDigits(rest)
    ensures NextNumber(Some(s), prefix, digits)
         == if rest == "" then Err(ValueError) else Ok(Number(ParseNat(rest) + 1, prefix, digits))
  {
    ParseDigits(rest);
  }

  lemma RemoveSeparable(z: string, prefix: string)
    requires Separable(prefix) && AllDigits(z)
    ensures Remove(prefix + z, prefix) == z
  {
    if prefix == "" {
      assert prefix + z == z;
    } else {
      RemoveInFront(z, prefix);
      DigitsDoNotContain(z, prefix);
      RemoveAbsent(z, prefix);
    }
  }

  lemma NextOfNumeral(z: string, prefix: string, digits: int)
    requires Separable(prefix) && z != "" && AllDigits(z)
    ensures NextNumber(Some(prefix + z), prefix, digits) == Ok(Number(ParseNat(z) + 1, prefix, digits))
  {
    RemoveSeparable(z, prefix);
    NextOfDigits(prefix + z, z, prefix, digits);
  }

  lemma NumberFollows(k: nat, prefix: string, digits: int)
    requires Separable(prefix)
    ensures NextNumber(Some(Number(k, prefix, digits)), prefix, digits) == Ok(Number(k + 1, prefix, digits))
  {
    var z := Numeral(k, digits);
    assert Number(k, prefix, digits) == prefix + z;
    NextOfNumeral(z, prefix, digits);
  }

  /** k iterations of the generator from the empty text. */
  function Iterate(k: nat, prefix: string, digits: int): Result<string, Error> {
    if k == 0 then Ok("")
    else
      var last := Iterate(k - 1, prefix, digits);
      if last.Err? then last else NextNumber(Some(last.value), prefix, digits)
  }

  /** Iterating k times from "" yields the prefix and the zero-filled rendering of k. */
  lemma {:induction false} IterateCounts(k: nat, prefix: string, digits: int)
    requires k >= 1 && Separable(prefix)
    ensures Iterate(k, prefix, digits) == Ok(Number(k, prefix, digits))
  {
    if k > 1 {
      IterateCounts(k - 1, prefix, digits);
      NumberFollows(k - 1, prefix, digits);
    }
  }

  // ---------- The condition on the prefix is exact ----------

  lemma {:induction false} RemoveKeepsDigits(s: string, p: string)
    requires AllDigits(s)
    ensures AllDigits(Remove(s, p))
    decreases |s|
  {
    if p != "" && s != "" {
      RemoveKeepsDigits(if StartsWith(s, p) then s[|p|..] else s[1..], p);
    }
  }

  lemma {:induction false} RemoveShrinks(s: string, p: string)
    requires p != "" && Contains(s, p)
    ensures |Remove(s, p)| <= |s| - |p|
    decreases |s|
  {
    if !StartsWith(s, p) {
      var i :| 0 <= i <= |s| && StartsWith(s[i..], p);
      assert s[0..] == s;
      assert s[1..][i - 1..] == s[i..];
      RemoveShrinks(s[1..], p);
    }
  }

  lemma {:induction false} LeadingDigitCounts(s: string)
    requires s != "" && AllDigits(s) && s[0] != '0'
    ensures ParseNat(s) >= 1
  {
    if |s| > 1 {
      LeadingDigitCounts(s[..|s| - 1]);
    } else {
      assert s[..0] == "";
    }
  }

  lemma {:induction false} StrOfParse(s: string)
    requires s != "" && AllDigits(s) && s[0] != '0'
    ensures StrNat(ParseNat(s)) == s
  {
    var n := ParseNat(s);
    if |s| == 1 {
      assert s[..0] == "";
      assert n < 10 && StrNat(n) == [DigitChar(n)];
    } else {
      var head := s[..|s| - 1];
      LeadingDigitCounts(head);
      StrOfParse(head);
      assert n / 10 == ParseNat(head) && n % 10 == DigitValue(s[|s| - 1]);
      assert s == head + [s[|s| - 1]];
    }
  }

  function Repeat(p: string, r: nat): string {
    if r == 0 then "" else p + Repeat(p, r - 1)
  }

  lemma {:induction false} RepeatedDigits(p: string, r: nat)
    requires p != "" && AllDigits(p)
    ensures AllDigits(Repeat(p, r)) && |Repeat(p, r)| >= r
  {
    if r > 0 {
      RepeatedDigits(p, r - 1);
    }
  }

  lemma {:induction false} Pow10Grows(a: nat, b: nat)
    requires a <= b
    ensures Pow10(a) <= Pow10(b)
    decreases b
  {
    if a < b {
      Pow10Grows(a, b - 1);
    }
  }

  lemma NumbersDiffer(a: nat, b: nat, prefix: string, digits: int)
    requires a != b
    ensures Number(a, prefix, digits) != Number(b, prefix, digits)
  {
    ParseZFill(a, digits);
    ParseZFill(b, digits);
    assert Number(a, prefix, digits)[|prefix|..] == ZFill(StrNat(a), digits);
    assert Number(b, prefix, digits)[|prefix|..] == ZFill(StrNat(b), digits);
  }

  /** A digit string that lost characters is a smaller number than the numeral it came from. */
  lemma ShorterIsSmaller(r: string, z: string)
    requires AllDigits(r) && z != "" && AllDigits(z) && z[0] != '0' && |r| < |z|
    ensures ParseNat(r) < ParseNat(z)
  {
    ParseBound(r);
    Pow10Grows(|r|, |z| - 1);
    StrOfParse(z);
    if |z| == 1 {
      LeadingDigitCounts(z);
      assert r == "";
    } else {
      StrNatLength(ParseNat(z), |z| - 1);
    }
  }

  lemma OtherNumber(r: Result<string, Error>, a: nat, b: nat, prefix: string, digits: int)
    requires a != b && (r.Err? || r == Ok(Number(a, prefix, digits)))
    ensures r != Ok(Number(b, prefix, digits))
  {
    NumbersDiffer(a, b, prefix, digits);
  }

  lemma SmallerMeansOff(s: string, rest: string, k: nat, prefix: string, digits: int)
    requires s != "" && rest == Remove(s, prefix) && AllDigits(rest) && ParseNat(rest) < k
    ensures NextNumber(Some(s), prefix, digits) != Ok(Number(k + 1, prefix, digits))
  {
    NextOfDigits(s, rest, prefix, digits);
    OtherNumber(NextNumber(Some(s), prefix, digits), ParseNat(rest) + 1, k + 1, prefix, digits);
  }

  /** A numeral that contains the prefix comes back with too few digits. */
  lemma SwallowedDigits(prefix: string, digits: int, z: string)
    requires prefix != "" && z != "" && AllDigits(z) && z[0] != '0' && |z| >= digits && Contains(z, prefix)
    ensures var k := ParseNat(z);
            k >= 1 && NextNumber(Some(Number(k, prefix, digits)), prefix, digits) != Ok(Number(k + 1, prefix, digits))
  {
    var k := ParseNat(z);
    StrOfParse(z);
    LeadingDigitCounts(z);
    SmallerAfterRemoval(prefix, z);
    RemoveInFront(z, prefix);
    SmallerMeansOff(prefix + z, Remove(z, prefix), k, prefix, digits);
    assert Number(k, prefix, digits) == prefix + z;
  }

  lemma SmallerAfterRemoval(prefix: string, z: string)
    requires prefix != "" && z != "" && AllDigits(z) && z[0] != '0' && Contains(z, prefix)
    ensures AllDigits(Remove(z, prefix)) && ParseNat(Remove(z, prefix)) < ParseNat(z)
  {
    RemoveShrinks(z, prefix);
    RemoveKeepsDigits(z, prefix);
    ShorterIsSmaller(Remove(z, prefix), z);
  }

  /** A non-empty prefix of digits alone swallows digits of some number, and the count goes wrong there. */
  lemma DigitPrefixBreaks(prefix: string, digits: int)
    requires prefix != "" && AllDigits(prefix)
    ensures exists k: nat :: k >= 1
              && NextNumber(Some(Number(k, prefix, digits)), prefix, digits) != Ok(Number(k + 1, prefix, digits))
  {
    var tail := Repeat(prefix, if digits >= 1 then digits else 1);
    RepeatedDigits(prefix, if digits >= 1 then digits else 1);
    var z := "1" + tail;
    assert z[1..] == tail && tail[..|prefix|] == prefix;
    assert StartsWith(z[1..], prefix);
    SwallowedDigits(prefix, digits, z);
  }

  /** Every number is followed by the next one exactly when the prefix is empty or not made of digits alone. */
  lemma CountsExactlyWhenSeparable(prefix: string, digits: int)
    ensures (forall k: nat :: k >= 1 ==>
               NextNumber(Some(Number(k, prefix, digits)), prefix, digits) == Ok(Number(k + 1, prefix, digits)))
        <==> Separable(prefix)
  {
    if Separable(prefix) {
      forall k: nat | k >= 1
        ensures NextNumber(Some(Number(k, prefix, digits)), prefix, digits) == Ok(Number(k + 1, prefix, digits))
      {
        NumberFollows(k, prefix, digits);
      }
    } else {
      DigitPrefixBreaks(prefix, digits);
    }
  }

  // ---------- Lexicographic order ----------

  /** Python's `a < b` on strings. */
  predicate LexLess(a: string, b: string) {
    exists i :: 0 <= i <= |a| && i < |b| && a[..i] == b[..i] && (i == |a| || a[i] < b[i])
  }

  lemma {:induction false} SameLengthParse(a: string, b: string)
    requires AllDigits(a) && AllDigits(b) && |a| == |b| && ParseNat(a) == ParseNat(b)
    ensures a == b
  {
    if a != "" {
      var n := |a| - 1;
      SameLengthParse(a[..n], b[..n]);
      assert a == a[..n] + [a[n]] && b == b[..n] + [b[n]];
    }
  }

  lemma {:induction false} NumericIsLexicographic(a: string, b: string)
    requires AllDigits(a) && AllDigits(b) && |a| == |b| && ParseNat(a) < ParseNat(b)
    ensures LexLess(a, b)
  {
    var n := |a| - 1;
    if ParseNat(a[..n]) < ParseNat(b[..n]) {
      NumericIsLexicographic(a[..n], b[..n]);
      var i :| 0 <= i <= n && i < n && a[..n][..i] == b[..n][..i] && (i == n || a[..n][i] < b[..n][i]);
      assert a[..i] == a[..n][..i] && b[..i] == b[..n][..i];
    } else {
      SameLengthParse(a[..n], b[..n]);
      assert a[n] < b[n];
    }
  }

  lemma PrefixKeepsOrder(prefix: string, a: string, b: string)
    requires LexLess(a, b)
    ensures LexLess(prefix + a, prefix + b)
  {
    var i :| 0 <= i <= |a| && i < |b| && a[..i] == b[..i] && (i == |a| || a[i] < b[i]);
    var j := |prefix| + i;
    assert (prefix + a)[..j] == prefix + a[..i] && (prefix + b)[..j] == prefix + b[..i];
  }

  /** Below 10^digits the numbers sort as text in the order they were generated. */
  lemma NumbersSortAsText(k: nat, l: nat, prefix: string, digits: int)
    requires digits >= 1 && k < l < Pow10(digits)
    ensures LexLess(Number(k, prefix, digits), Number(l, prefix, digits))
  {
    StrNatLength(k, digits);
    StrNatLength(l, digits);
    ParseZFill(k, digits);
    ParseZFill(l, digits);
    NumericIsLexicographic(ZFill(StrNat(k), digits), ZFill(StrNat(l), digits));
    PrefixKeepsOrder(prefix, ZFill(StrNat(k), digits), ZFill(StrNat(l), digits));
  }

  /** The bound is sharp: 10^digits sorts as text before the number generated just before it. */
  lemma OrderBreaksAtPowerOfTen(prefix: string, digits: nat)
    requires digits >= 1
    ensures LexLess(Number(Pow10(digits), prefix, digits), Number(Pow10(digits) - 1, prefix, digits))
  {
    PowerStartsWithOne(digits);
    PredecessorStartsWithNine(digits);
    StrNatLength(Pow10(digits) - 1, digits);
    StrNatLength(Pow10(digits), digits);
    var a, b := StrNat(Pow10(digits)), StrNat(Pow10(digits) - 1);
    assert a[..0] == b[..0] && a[0] < b[0];
    assert LexLess(a, b);
    assert ZFill(a, digits) == a;
    assert ZFill(b, digits) == b;
    PrefixKeepsOrder(prefix, a, b);
  }

  lemma LexAsymmetric(a: string, b: string)
    requires LexLess(a, b)
    ensures !LexLess(b, a)
  {
    var i :| 0 <= i <= |a| && i < |b| && a[..i] == b[..i] && (i == |a| || a[i] < b[i]);
    forall j | 0 <= j <= |b| && j < |a|
      ensures !(b[..j] == a[..j] && (j == |b| || b[j] < a[j]))
    {
      if j < i {
        assert a[..i][j] == a[j] && b[..i][j] == b[j];
      } else if j > i {
        assert a[..j][i] == a[i] && b[..j][i] == b[i];
      }
    }
  }

  /** The places that numbers of a width have without filling: one at least. */
  function Places(digits: int): nat {
    if digits >= 1 then digits else 1
  }

  lemma NoFillingBelowOne(k: nat, prefix: string, digits: int)
    ensures Number(k, prefix, digits) == Number(k, prefix, Places(digits))
  {
  }

  /** The numbers up to n sort as text in the order they were generated if and only if n is below 10^digits. */
  lemma SortedExactlyBelowPowerOfTen(n: nat, prefix: string, digits: int)
    ensures (forall k: nat, l: nat :: k < l <= n ==> LexLess(Number(k, prefix, digits), Number(l, prefix, digits)))
        <==> n < Pow10(Places(digits))
  {
    var places := Places(digits);
    forall k: nat, l: nat | k < l <= n && n < Pow10(places)
      ensures LexLess(Number(k, prefix, digits), Number(l, prefix, digits))
    {
      NoFillingBelowOne(k, prefix, digits);
      NoFillingBelowOne(l, prefix, digits);
      NumbersSortAsText(k, l, prefix, places);
    }
    if n >= Pow10(places) {
      var k, l := Pow10(places) - 1, Pow10(places);
      NoFillingBelowOne(k, prefix, digits);
      NoFillingBelowOne(l, prefix, digits);
      OrderBreaksAtPowerOfTen(prefix, places);
      LexAsymmetric(Number(l, prefix, places), Number(k, prefix, places));
    }
  }

  lemma {:induction false} PowerStartsWithOne(k: nat)
    ensures StrNat(Pow10(k))[0] == '1'
  {
    if k > 0 {
      PowerStartsWithOne(k - 1);
    }
  }

  lemma {:induction false} PredecessorStartsWithNine(k: nat)
    requires k >= 1
    ensures StrNat(Pow10(k) - 1)[0] == '9' && |StrNat(Pow10(k) - 1)| == k
  {
    if k > 1 {
      PredecessorStartsWithNine(k - 1);
      assert (Pow10(k) - 1) / 10 == Pow10(k - 1) - 1;
    } else {
      assert Pow10(1) - 1 == 9;
    }
  }
}
