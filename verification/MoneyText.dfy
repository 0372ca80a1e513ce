/** Reading one printed figure: grouping commas, two decimals, and accounting brackets for a negative. */
module MoneyText {
  import opened Options
  import opened Decimals
  import opened Text

  predicate IsDigit(c: char) {
    '0' <= c <= '9'
  }

  predicate AllDigits(s: string) {
    forall i :: 0 <= i < |s| ==> IsDigit(s[i])
  }

  /** The number a run of decimal digits writes; no digits write zero. */
  function DigitsValue(s: string): nat
    requires AllDigits(s)
  {
    if s == [] then 0 else 10 * DigitsValue(s[..|s| - 1]) + (s[|s| - 1] as int - '0' as int)
  }

  function WithoutCommas(s: string): string {
    if s == [] then []
    else WithoutCommas(s[..|s| - 1]) + if s[|s| - 1] == ',' then [] else [s[|s| - 1]]
  }

  /** Where the decimal point is, or the end. */
  function PointAt(s: string): (k: nat)
    ensures k <= |s| && (k < |s| ==> s[k] == '.') && forall i :: 0 <= i < k ==> s[i] != '.'
  {
    if s == [] || s[0] == '.' then 0 else 1 + PointAt(s[1..])
  }

  /** Plain notation: digits, and at most one point among or beside them. */
  function Plain(s: string): Option<Decimal> {
    var k := PointAt(s);
    var fraction := if k < |s| then s[k + 1..] else [];
    if AllDigits(s[..k]) && AllDigits(fraction) && k + |fraction| > 0
    then Some(Decimal(DigitsValue(s[..k] + fraction), 0 - |fraction|))
    else None
  }

  predicate Bracketed(s: string) {
    s != [] && s[0] == '(' && s[|s| - 1] == ')'
  }

  function ToDecimal(text: string): Option<Decimal> {
    var stripped := Strip(text);
    var negative := Bracketed(stripped);
    var value := Plain(WithoutCommas(if negative then stripped[1..|stripped| - 1] else stripped));
    if value.Some? && negative then Some(Decimal(0 - value.value.coefficient, value.value.exponent)) else value
  }

  /** Any figure of digits can be read: as a whole number, or with as many places as stand behind its point. */
  lemma FigureMeaning(whole: string, fraction: string)
    requires AllDigits(whole) && AllDigits(fraction)
    ensures whole != [] ==> Plain(whole) == Some(Decimal(DigitsValue(whole), 0))
    ensures whole + fraction != [] ==> Plain(whole + "." + fraction) == Some(Decimal(DigitsValue(whole + fraction), 0 - |fraction|))
    ensures Plain("").None? && Plain(".").None?
  {
    WholeMeaning(whole);
    PointedMeaning(whole, fraction);
  }

  lemma WholeMeaning(whole: string)
    requires AllDigits(whole)
    ensures whole != [] ==> Plain(whole) == Some(Decimal(DigitsValue(whole), 0))
  {
    hide DigitsValue, PointAt;
    NoPoint(whole);
    assert whole[..|whole|] == whole && whole + [] == whole;
  }

  lemma PointedMeaning(whole: string, fraction: string)
    requires AllDigits(whole) && AllDigits(fraction)
    ensures whole + fraction != [] ==> Plain(whole + "." + fraction) == Some(Decimal(DigitsValue(whole + fraction), 0 - |fraction|))
  {
    DigitsJoined(whole, fraction);
    var tail := "." + fraction;
    PointAfter(whole, tail);
    hide DigitsValue, PointAt, AllDigits;
    var s := whole + "." + fraction;
    assert s == whole + tail && |s| == |whole| + 1 + |fraction|;
    assert s[..|whole|] == whole && s[|whole| + 1..] == fraction;
  }

  lemma DigitsJoined(whole: string, fraction: string)
    requires AllDigits(whole) && AllDigits(fraction)
    ensures AllDigits(whole + fraction)
  {
    var s := whole + fraction;
    forall i | 0 <= i < |s| ensures IsDigit(s[i]) { assert s[i] == if i < |whole| then whole[i] else fraction[i - |whole|]; }
  }

  lemma {:induction false} NoPoint(s: string)
    requires AllDigits(s)
    ensures PointAt(s) == |s|
  {
    if s != [] { NoPoint(s[1..]); }
  }

  // ---- Money lines ----

  predicate IsAmount(s: string) {
    && |s| >= 4 && s[|s| - 3] == '.' && IsDigit(s[|s| - 2]) && IsDigit(s[|s| - 1])
    && forall i :: 0 <= i < |s| - 3 ==> IsDigit(s[i]) || s[i] == ','
  }

  /** A figure in the table: an amount with two decimals, with an optional bracket on either side. */
  predicate IsMoneyLine(s: string) {
    s != [] && IsAmount(Unbracketed(s))
  }

  /** The line without a leading and without a trailing bracket. */
  function Unbracketed(s: string): string {
    var inner := if s != [] && s[0] == '(' then s[1..] else s;
    if inner != [] && inner[|inner| - 1] == ')' then inner[..|inner| - 1] else inner
  }

  /** The shape of a money line, part by part. */
  ghost predicate IsWritten(s: string, opening: string, whole: string, hundredths: string, closing: string) {
    && s == opening + whole + "." + hundredths + closing && opening in {"", "("} && closing in {"", ")"}
    && whole != [] && |hundredths| == 2
    && (forall c :: c in whole ==> c in "0123456789,") && (forall c :: c in hundredths ==> c in "0123456789")
  }

  lemma DigitIff(c: char)
    ensures IsDigit(c) <==> c in "0123456789"
  {
    var digits := "0123456789";
    if IsDigit(c) {
      var k := c as int - '0' as int;
      assert digits[k] == c;
    }
  }

  /** A money line is digits and commas, a point and two digits, with or without a bracket on either side. */
  lemma MoneyLineIff(s: string)
    ensures IsMoneyLine(s) <==> exists opening, whole, hundredths, closing :: IsWritten(s, opening, whole, hundredths, closing)
  {
    hide IsMoneyLine, IsWritten;
    if IsMoneyLine(s) { MoneyIsWritten(s); }
    if opening, whole, hundredths, closing :| IsWritten(s, opening, whole, hundredths, closing) {
      WrittenIsMoney(s, opening, whole, hundredths, closing);
    }
  }

  lemma AmountIsWritten(amount: string)
    requires IsAmount(amount)
    ensures amount == amount[..|amount| - 3] + "." + amount[|amount| - 2..] && amount[..|amount| - 3] != []
    ensures forall c :: c in amount[..|amount| - 3] ==> c in "0123456789,"
    ensures forall c :: c in amount[|amount| - 2..] ==> c in "0123456789"
  {
    forall c { DigitIff(c); }
    hide IsDigit;
    var whole, hundredths := amount[..|amount| - 3], amount[|amount| - 2..];
    forall c | c in whole ensures c in "0123456789," {
      var i :| 0 <= i < |whole| && whole[i] == c;
      assert amount[i] == c;
    }
    forall c | c in hundredths ensures c in "0123456789" {
      var i :| 0 <= i < |hundredths| && hundredths[i] == c;
      assert amount[|amount| - 2 + i] == c;
    }
  }

  lemma MoneyIsWritten(s: string)
    requires IsMoneyLine(s)
    ensures exists opening, whole, hundredths, closing :: IsWritten(s, opening, whole, hundredths, closing)
  {
    hide IsAmount, IsWritten, Unbracketed;
    var amount := Unbracketed(s);
    var opening, closing := BracketsPutBack(s);
    PartsAreWritten(s, amount, opening, closing);
    var whole, hundredths := amount[..|amount| - 3], amount[|amount| - 2..];
    assert IsWritten(s, opening, whole, hundredths, closing);
  }

  lemma BracketsPutBack(s: string) returns (opening: string, closing: string)
    requires s != []
    ensures opening in {"", "("} && closing in {"", ")"} && s == opening + (Unbracketed(s) + closing)
  {
    var inner := if s[0] == '(' then s[1..] else s;
    opening := if s[0] == '(' then "(" else "";
    closing := if inner != [] && inner[|inner| - 1] == ')' then ")" else "";
    assert s == opening + inner;
    assert inner == Unbracketed(s) + closing;
  }

  lemma PartsAreWritten(s: string, amount: string, opening: string, closing: string)
    requires IsAmount(amount) && s == opening + (amount + closing) && opening in {"", "("} && closing in {"", ")"}
    ensures |amount| >= 4 && IsWritten(s, opening, amount[..|amount| - 3], amount[|amount| - 2..], closing)
  {
    AmountIsWritten(amount);
    hide IsAmount;
    var whole, hundredths := amount[..|amount| - 3], amount[|amount| - 2..];
    assert s == opening + whole + "." + hundredths + closing;
  }

  lemma WrittenIsMoney(s: string, opening: string, whole: string, hundredths: string, closing: string)
    requires IsWritten(s, opening, whole, hundredths, closing)
    ensures IsMoneyLine(s)
  {
    hide IsWritten, IsAmount;
    var amount := whole + "." + hundredths;
    PartsOfWritten(s, opening, whole, hundredths, closing);
    OpeningTaken(s, opening, amount + closing);
    ClosingTaken(amount + closing, amount, closing);
  }

  lemma PartsOfWritten(s: string, opening: string, whole: string, hundredths: string, closing: string)
    requires IsWritten(s, opening, whole, hundredths, closing)
    ensures var amount := whole + "." + hundredths;
            && s == opening + (amount + closing) && opening in {"", "("} && closing in {"", ")"}
            && IsAmount(amount) && amount[0] != '(' && amount[|amount| - 1] != ')'
  {
    IsWrittenAmount(whole, hundredths);
    hide IsAmount;
    var amount := whole + "." + hundredths;
    assert s == opening + (amount + closing);
    assert amount[0] == whole[0] && amount[|amount| - 1] == hundredths[1];
  }

  lemma OpeningTaken(s: string, opening: string, inner: string)
    requires opening in {"", "("} && s == opening + inner && inner != [] && inner[0] != '('
    ensures s != [] && (if s[0] == '(' then s[1..] else s) == inner
  {
    if opening == "" { assert s == inner; } else { assert s[1..] == inner; }
  }

  lemma ClosingTaken(inner: string, amount: string, closing: string)
    requires closing in {"", ")"} && inner == amount + closing && amount != [] && amount[|amount| - 1] != ')'
    ensures (if inner[|inner| - 1] == ')' then inner[..|inner| - 1] else inner) == amount
  {
    if closing == "" { assert inner == amount; } else { assert inner[..|inner| - 1] == amount; }
  }

  lemma IsWrittenAmount(whole: string, hundredths: string)
    requires whole != [] && |hundredths| == 2
    requires (forall c :: c in whole ==> c in "0123456789,") && (forall c :: c in hundredths ==> c in "0123456789")
    ensures IsAmount(whole + "." + hundredths) && whole[0] != '(' && hundredths[1] != ')'
  {
    forall c { DigitIff(c); }
    hide IsDigit;
    var amount := whole + "." + hundredths;
    assert whole[0] in whole && hundredths[1] in hundredths && hundredths[0] in hundredths;
    forall i | 0 <= i < |amount| - 3 ensures IsDigit(amount[i]) || amount[i] == ',' { assert amount[i] == whole[i] && whole[i] in whole; }
  }

  /** What a run of digits writes: nothing is zero, and each digit counts what it is, ten times below the one before. */
  lemma DigitsMean(s: string, c: char, k: nat)
    requires AllDigits(s) && k < 10 && c == "0123456789"[k]
    ensures AllDigits(s + [c]) && DigitsValue(s + [c]) == 10 * DigitsValue(s) + k && DigitsValue([]) == 0
  {
    assert (s + [c])[..|s|] == s;
    assert forall i :: 0 <= i < |s + [c]| ==> (s + [c])[i] == if i < |s| then s[i] else c;
  }

  lemma {:induction false} CommasOut(s: string)
    requires forall i :: 0 <= i < |s| ==> IsDigit(s[i]) || s[i] == ','
    ensures AllDigits(WithoutCommas(s))
  {
    if s != [] { CommasOut(s[..|s| - 1]); }
  }

  lemma {:induction false} CommasOfSum(s: string, t: string)
    requires ',' !in t
    ensures WithoutCommas(s + t) == WithoutCommas(s) + t
  {
    if t == [] {
      assert s + t == s && WithoutCommas(s) + [] == WithoutCommas(s);
    } else {
      var front, last := t[..|t| - 1], t[|t| - 1];
      assert (s + t)[..|s + t| - 1] == s + front && last in t;
      CommasOfSum(s, front);
      assert t == front + [last];
      assert WithoutCommas(s) + front + [last] == WithoutCommas(s) + t;
    }
  }

  /** The digits of an amount, in order, the two decimals last. */
  function DigitsOf(amount: string): (digits: string)
    requires IsAmount(amount)
    ensures AllDigits(digits) && |digits| >= 2
  {
    CommasOut(amount[..|amount| - 3]);
    WithoutCommas(amount[..|amount| - 3]) + amount[|amount| - 2..]
  }

  /** Without its commas an amount is its digits with the point before the last two. */
  lemma AmountWithoutCommas(amount: string)
    requires IsAmount(amount)
    ensures var whole, tail := amount[..|amount| - 3], amount[|amount| - 3..];
            && AllDigits(WithoutCommas(whole)) && WithoutCommas(amount) == WithoutCommas(whole) + tail
            && DigitsOf(amount) == WithoutCommas(whole) + tail[1..]
  {
    var whole, tail := amount[..|amount| - 3], amount[|amount| - 3..];
    assert amount == whole + tail;
    CommasOfSum(whole, tail);
    CommasOut(whole);
    assert tail[1..] == amount[|amount| - 2..];
  }

  lemma {:induction false} PointAfter(digits: string, tail: string)
    requires AllDigits(digits) && tail != [] && tail[0] == '.'
    ensures PointAt(digits + tail) == |digits|
  {
    if digits == [] {
      assert digits + tail == tail;
    } else {
      assert (digits + tail)[0] == digits[0] && (digits + tail)[1..] == digits[1..] + tail;
      PointAfter(digits[1..], tail);
    }
  }

  lemma PlainAmount(amount: string)
    requires IsAmount(amount)
    ensures Plain(WithoutCommas(amount)) == Some(Decimal(DigitsValue(DigitsOf(amount)), -2))
  {
    hide WithoutCommas, DigitsOf, PointAt;
    var whole, tail := amount[..|amount| - 3], amount[|amount| - 3..];
    AmountWithoutCommas(amount);
    var digits := WithoutCommas(whole);
    var s := digits + tail;
    PointAfter(digits, tail);
    assert s[..|digits|] == digits && s[|digits| + 1..] == tail[1..];
  }

  lemma {:induction false} StripNothing(s: string)
    requires s != [] && !IsSpace(s[0]) && !IsSpace(s[|s| - 1])
    ensures Strip(s) == s
  {
  }

  lemma StrayOpening(t: string)
    requires t != [] && t[0] == '('
    ensures Plain(t).None?
  {
    var k := PointAt(t);
    assert k > 0 && t[..k][0] == '(';
  }

  /** A bracket on one side only: the figure cannot be read. */
  lemma OneBracketIsUnreadable(amount: string)
    requires IsAmount(amount)
    ensures Plain(WithoutCommas("(" + amount)).None?
    ensures Plain(WithoutCommas(amount + ")")).None?
  {
    KeepsFirst("(" + amount);
    StrayOpening(WithoutCommas("(" + amount));
    CommasOfSum(amount, ")");
    PointInside(WithoutCommas(amount) + ")", amount);
  }

  lemma {:induction false} KeepsFirst(s: string)
    requires s != [] && s[0] != ','
    ensures WithoutCommas(s) != [] && WithoutCommas(s)[0] == s[0]
  {
    if |s| > 1 { KeepsFirst(s[..|s| - 1]); }
  }

  lemma PointInside(t: string, amount: string)
    requires IsAmount(amount) && t == WithoutCommas(amount) + ")"
    ensures Plain(t).None?
  {
    hide WithoutCommas, DigitsOf, PointAt;
    var whole, tail := amount[..|amount| - 3], amount[|amount| - 3..];
    AmountWithoutCommas(amount);
    var digits := WithoutCommas(whole);
    assert t == digits + (tail + ")");
    PointAfter(digits, tail + ")");
    assert t[|digits| + 1..][2] == ')';
  }

  lemma ReadsAmount(amount: string)
    requires IsAmount(amount)
    ensures ToDecimal(amount) == Some(Decimal(DigitsValue(DigitsOf(amount)), -2))
  {
    StripNothing(amount);
    PlainAmount(amount);
  }

  lemma ReadsBracketed(amount: string)
    requires IsAmount(amount)
    ensures ToDecimal("(" + amount + ")") == Some(Decimal(0 - DigitsValue(DigitsOf(amount)), -2))
  {
    var s := "(" + amount + ")";
    StripNothing(s);
    assert s[1..|s| - 1] == amount;
    PlainAmount(amount);
  }

  lemma RefusesOneBracket(amount: string)
    requires IsAmount(amount)
    ensures ToDecimal("(" + amount).None? && ToDecimal(amount + ")").None?
  {
    StripNothing("(" + amount);
    StripNothing(amount + ")");
    OneBracketIsUnreadable(amount);
  }

  /** A money line is its amount with or without each bracket. */
  lemma MoneyLineShape(s: string)
    requires IsMoneyLine(s)
    ensures var amount := Unbracketed(s);
            && amount[0] != '(' && amount[|amount| - 1] != ')'
            && s == (if s[0] == '(' then if s[|s| - 1] == ')' then "(" + amount + ")" else "(" + amount
                     else if s[|s| - 1] == ')' then amount + ")" else amount)
  {
  }

  /** A money line can be read exactly when its brackets match, and then it means its digits in hundredths,
      negative inside brackets, wherever the commas stand. */
  lemma MoneyLineMeaning(s: string)
    requires IsMoneyLine(s)
    ensures ToDecimal(s).Some? <==> (s[0] == '(' <==> s[|s| - 1] == ')')
    ensures ToDecimal(s).Some? ==>
              var digits := DigitsValue(DigitsOf(Unbracketed(s)));
              ToDecimal(s) == Some(Decimal(if Bracketed(s) then 0 - digits else digits, -2))
  {
    var amount := Unbracketed(s);
    MoneyLineShape(s);
    if s[0] == '(' && s[|s| - 1] == ')' {
      ReadsBracketed(amount);
    } else if s[0] == '(' || s[|s| - 1] == ')' {
      RefusesOneBracket(amount);
    } else {
      ReadsAmount(amount);
    }
  }

  /** Brackets negate: a recovery is the charge with its sign reversed, never dropped. */
  lemma BracketsNegate(amount: string)
    requires IsAmount(amount)
    ensures ToDecimal(amount).Some? && ToDecimal("(" + amount + ")").Some?
    ensures ToDecimal("(" + amount + ")").value.Value() == 0.0 - ToDecimal(amount).value.Value()
  {
    ReadsAmount(amount);
    ReadsBracketed(amount);
  }
}
