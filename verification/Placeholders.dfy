/**
 Query text with numbered placeholders, and the renumbering that makes room for one
 more argument in front: a loop of plain text replacements from the highest number
 down. A clause is a list of pieces; what is rewritten is the string it renders to.
 */
module Placeholders {

  // ----- decimal numbers -----

  predicate IsDigit(c: char) {
    '0' <= c <= '9'
  }

  predicate Digits(s: string) {
    forall c | c in s :: IsDigit(c)
  }

  function DigitOf(n: nat): char
    requires n < 10
  {
    '0' + n as char
  }

  function Dec(n: nat): string {
    if n < 10 then [DigitOf(n)] else Dec(n / 10) + [DigitOf(n % 10)]
  }

  function Value(s: string): nat
    requires Digits(s)
  {
    if s == "" then 0 else
      assert s[|s| - 1] in s;
      Value(s[..|s| - 1]) * 10 + (s[|s| - 1] - '0') as nat
  }

  lemma {:induction false} DecIsCanonical(n: nat)
    ensures Digits(Dec(n)) && Dec(n) != "" && Value(Dec(n)) == n
    ensures n > 0 ==> Dec(n)[0] != '0'
    ensures |Dec(n)| == 1 <==> n < 10
  {
    if n >= 10 {
      DecIsCanonical(n / 10);
      assert Dec(n)[..|Dec(n)| - 1] == Dec(n / 10);
    } else {
      assert Dec(n)[..0] == "";
    }
  }

  /** A longer number with the same leading digits is the larger one. */
  lemma {:induction false} PrefixIsSmaller(p: string, w: string)
    requires Digits(w) && p <= w
    ensures Digits(p) && Value(p) <= Value(w)
    ensures p != w && Value(p) > 0 ==> Value(p) < Value(w)
  {
    assert forall c | c in p :: c in w;
    if p != w {
      var front := w[..|w| - 1];
      assert p <= front;
      assert forall c | c in front :: c in w;
      PrefixIsSmaller(p, front);
    }
  }

  /** Raising the leading digits raises the number. */
  lemma {:induction false} LargerPrefix(p: string, q: string, rest: string)
    requires Digits(p) && Digits(q) && Digits(rest) && Value(p) < Value(q)
    ensures Digits(p + rest) && Digits(q + rest) && Value(p + rest) < Value(q + rest)
  {
    if rest == "" {
      assert p + rest == p && q + rest == q;
    } else {
      var front, last := rest[..|rest| - 1], rest[|rest| - 1];
      assert last in rest && forall c | c in front :: c in rest;
      LargerPrefix(p, q, front);
      assert (p + rest)[..|p + rest| - 1] == p + front;
      assert (q + rest)[..|q + rest| - 1] == q + front;
    }
  }

  // ----- text replacement -----

  /** Replace every occurrence of `pattern`, leftmost first and without overlap. */
  function ReplaceAll(s: string, pattern: string, replacement: string): string
    requires pattern != ""
    decreases |s|
  {
    if s == "" then ""
    else if pattern <= s then replacement + ReplaceAll(s[|pattern|..], pattern, replacement)
    else [s[0]] + ReplaceAll(s[1..], pattern, replacement)
  }

  function Mark(n: nat): string {
    "$" + Dec(n)
  }

  /** The loop of `detailScope`: `$n` becomes `$n+1`, then `$n-1` becomes `$n`, and so on. */
  function RenumberFrom(s: string, n: nat): string
    decreases n
  {
    if n == 0 then s else RenumberFrom(ReplaceAll(s, Mark(n), Mark(n + 1)), n - 1)
  }

  // ----- clauses -----

  datatype Piece = Text(text: string) | Param(digits: string)

  type Clause = seq<Piece>

  function RenderPiece(p: Piece): string {
    match p
    case Text(text) => text
    case Param(digits) => "$" + digits
  }

  function Render(c: Clause): string {
    if c == [] then "" else RenderPiece(c[0]) + Render(c[1..])
  }

  /** Text carries no dollar sign and does not start with a digit; a parameter is a number. */
  ghost predicate GoodPiece(p: Piece) {
    match p
    case Text(text) => text != "" && !IsDigit(text[0]) && '$' !in text
    case Param(digits) => digits != "" && Digits(digits)
  }

  ghost predicate Good(c: Clause) {
    forall p | p in c :: GoodPiece(p)
  }

  /** What one replacement step does to a parameter: it rewrites a matching prefix. */
  function Bump(digits: string, n: nat): string {
    if Dec(n) <= digits then Dec(n + 1) + digits[|Dec(n)|..] else digits
  }

  function BumpPiece(p: Piece, n: nat): Piece {
    match p
    case Text(_) => p
    case Param(digits) => Param(Bump(digits, n))
  }

  function BumpAll(c: Clause, n: nat): (r: Clause)
    ensures |r| == |c| && forall i | 0 <= i < |c| :: r[i] == BumpPiece(c[i], n)
  {
    if c == [] then [] else [BumpPiece(c[0], n)] + BumpAll(c[1..], n)
  }

  predicate StartsWithDigit(s: string) {
    s != "" && IsDigit(s[0])
  }

  lemma GoodTail(c: Clause)
    requires Good(c) && c != []
    ensures GoodPiece(c[0]) && Good(c[1..])
  {
    assert c[0] in c && forall p | p in c[1..] :: p in c;
  }

  lemma {:induction false} RenderedStart(c: Clause)
    requires Good(c)
    ensures !StartsWithDigit(Render(c))
  {
    if c != [] { GoodTail(c); }
  }

  lemma {:induction false} ReplaceSkipsText(text: string, rest: string, n: nat)
    requires '$' !in text
    ensures ReplaceAll(text + rest, Mark(n), Mark(n + 1)) == text + ReplaceAll(rest, Mark(n), Mark(n + 1))
    decreases |text|
  {
    if text == "" {
      assert text + rest == rest;
    } else {
      assert text[0] in text && forall c | c in text[1..] :: c in text;
      assert (text + rest)[0] == text[0] && (text + rest)[1..] == text[1..] + rest;
      assert !(Mark(n) <= text + rest);
      ReplaceSkipsText(text[1..], rest, n);
      assert text == [text[0]] + text[1..];
    }
  }

  lemma DigitsHoldNoDollar(s: string)
    requires Digits(s)
    ensures '$' !in s
  {
  }

  /** A digit string that is a prefix of digits and more text lies within those digits. */
  lemma DigitsFit(d: string, digits: string, rest: string)
    requires Digits(d) && !StartsWithDigit(rest) && d <= digits + rest
    ensures d <= digits
  {
    assert forall i | 0 <= i < |d| :: d[i] == (digits + rest)[i] && d[i] in d;
    assert rest != "" ==> (digits + rest)[|digits|] == rest[0];
  }

  lemma MarkMatchesPrefix(digits: string, rest: string, n: nat)
    requires Digits(digits) && !StartsWithDigit(rest)
    ensures Mark(n) <= "$" + (digits + rest) <==> Dec(n) <= digits
  {
    DecIsCanonical(n);
    var s := "$" + (digits + rest);
    assert s[1..] == digits + rest && Mark(n)[1..] == Dec(n) && s[0] == Mark(n)[0];
    if Mark(n) <= s {
      assert s[..|Mark(n)|][1..] == s[1..][..|Dec(n)|];
      DigitsFit(Dec(n), digits, rest);
    }
    if Dec(n) <= digits {
      assert s[..|Mark(n)|] == "$" + digits[..|Dec(n)|];
    }
  }

  lemma ReplaceRewritesMatch(digits: string, rest: string, n: nat)
    requires Digits(digits) && !StartsWithDigit(rest) && Dec(n) <= digits
    ensures ReplaceAll("$" + (digits + rest), Mark(n), Mark(n + 1))
         == Mark(n + 1) + (digits[|Dec(n)|..] + ReplaceAll(rest, Mark(n), Mark(n + 1)))
  {
    var s := "$" + (digits + rest);
    var tail := digits[|Dec(n)|..];
    MarkMatchesPrefix(digits, rest, n);
    assert s[|Mark(n)|..] == tail + rest;
    assert forall c | c in tail :: c in digits;
    DigitsHoldNoDollar(tail);
    ReplaceSkipsText(tail, rest, n);
  }

  lemma ReplaceSkipsOther(digits: string, rest: string, n: nat)
    requires Digits(digits) && !StartsWithDigit(rest) && !(Dec(n) <= digits)
    ensures ReplaceAll("$" + (digits + rest), Mark(n), Mark(n + 1))
         == "$" + (digits + ReplaceAll(rest, Mark(n), Mark(n + 1)))
  {
    var s := "$" + (digits + rest);
    MarkMatchesPrefix(digits, rest, n);
    assert s[1..] == digits + rest && [s[0]] == "$";
    DigitsHoldNoDollar(digits);
    ReplaceSkipsText(digits, rest, n);
  }

  lemma Regroup(a: string, b: string, c: string, d: string)
    ensures (a + b) + (c + d) == a + (b + c) + d
  {
  }

  lemma ReplaceBumpsParam(digits: string, rest: string, n: nat)
    requires Digits(digits) && !StartsWithDigit(rest)
    ensures ReplaceAll("$" + digits + rest, Mark(n), Mark(n + 1))
         == "$" + Bump(digits, n) + ReplaceAll(rest, Mark(n), Mark(n + 1))
  {
    var after := ReplaceAll(rest, Mark(n), Mark(n + 1));
    Regroup("$", "", digits, rest);
    assert "$" + "" == "$" && "" + digits == digits;
    if Dec(n) <= digits {
      ReplaceRewritesMatch(digits, rest, n);
      Regroup("$", Dec(n + 1), digits[|Dec(n)|..], after);
    } else {
      ReplaceSkipsOther(digits, rest, n);
      Regroup("$", "", digits, after);
      assert "$" + "" == "$" && "" + digits == digits;
    }
  }

  /** One replacement over the text is one bump of every parameter, and touches nothing else. */
  lemma {:induction false} ReplaceIsBump(c: Clause, n: nat)
    requires Good(c)
    ensures ReplaceAll(Render(c), Mark(n), Mark(n + 1)) == Render(BumpAll(c, n))
  {
    if c != [] {
      GoodTail(c);
      ReplaceIsBump(c[1..], n);
      RenderedStart(c[1..]);
      match c[0]
      case Text(text) => ReplaceSkipsText(text, Render(c[1..]), n);
      case Param(digits) => ReplaceBumpsParam(digits, Render(c[1..]), n);
    }
  }

  // ----- the whole loop -----

  function BumpFrom(digits: string, n: nat): string
    decreases n
  {
    if n == 0 then digits else BumpFrom(Bump(digits, n), n - 1)
  }

  function BumpAllFrom(c: Clause, n: nat): Clause
    decreases n
  {
    if n == 0 then c else BumpAllFrom(BumpAll(c, n), n - 1)
  }

  lemma BumpRaisesMatch(p: string, q: string, digits: string)
    requires Digits(p) && Digits(q) && Value(p) < Value(q) && Digits(digits) && p <= digits
    ensures Digits(q + digits[|p|..]) && Value(digits) < Value(q + digits[|p|..])
  {
    var tail := digits[|p|..];
    assert forall c | c in tail :: c in digits;
    LargerPrefix(p, q, tail);
    assert digits == p + tail;
  }

  lemma BumpKeepsDigits(digits: string, n: nat)
    requires Digits(digits) && digits != ""
    ensures Digits(Bump(digits, n)) && Bump(digits, n) != ""
    ensures Value(Bump(digits, n)) >= Value(digits)
    ensures Dec(n) <= digits ==> Value(Bump(digits, n)) > Value(digits)
  {
    if Dec(n) <= digits {
      DecIsCanonical(n);
      DecIsCanonical(n + 1);
      BumpRaisesMatch(Dec(n), Dec(n + 1), digits);
    }
  }

  lemma BumpAllKeepsGood(c: Clause, n: nat)
    requires Good(c)
    ensures Good(BumpAll(c, n))
  {
    forall p | p in BumpAll(c, n) ensures GoodPiece(p) {
      var i :| 0 <= i < |c| && BumpAll(c, n)[i] == p;
      assert c[i] in c;
      if c[i].Param? { BumpKeepsDigits(c[i].digits, n); }
    }
  }

  /** The string loop is the piecewise loop. */
  lemma {:induction false} RenumberIsBump(c: Clause, n: nat)
    requires Good(c)
    ensures RenumberFrom(Render(c), n) == Render(BumpAllFrom(c, n)) && Good(BumpAllFrom(c, n))
    ensures |BumpAllFrom(c, n)| == |c|
    ensures forall i | 0 <= i < |c| ::
              BumpAllFrom(c, n)[i] == if c[i].Text? then c[i] else Param(BumpFrom(c[i].digits, n))
    decreases n
  {
    if n > 0 {
      ReplaceIsBump(c, n);
      BumpAllKeepsGood(c, n);
      RenumberIsBump(BumpAll(c, n), n - 1);
    }
  }

  lemma {:induction false} BumpFromOnlyRaises(digits: string, n: nat)
    requires Digits(digits) && digits != ""
    ensures Digits(BumpFrom(digits, n)) && Value(BumpFrom(digits, n)) >= Value(digits)
    decreases n
  {
    if n > 0 {
      BumpKeepsDigits(digits, n);
      BumpFromOnlyRaises(Bump(digits, n), n - 1);
    }
  }

  lemma LargerLeavesAlone(k: nat, n: nat)
    requires 0 < k < n
    ensures Bump(Dec(k), n) == Dec(k)
  {
    DecIsCanonical(k);
    DecIsCanonical(n);
    if Dec(n) <= Dec(k) { PrefixIsSmaller(Dec(n), Dec(k)); }
  }

  lemma OwnTurn(k: nat)
    ensures Bump(Dec(k), k) == Dec(k + 1)
  {
    assert Dec(k)[|Dec(k)|..] == "";
  }

  /** Numbers below the ones being replaced are left alone until their own turn comes. */
  lemma {:induction false} WaitsForItsTurn(k: nat, n: nat)
    requires 0 < k <= n
    ensures BumpFrom(Dec(k), n) == BumpFrom(Dec(k + 1), k - 1)
    decreases n
  {
    if n > k {
      LargerLeavesAlone(k, n);
      WaitsForItsTurn(k, n - 1);
    } else {
      OwnTurn(k);
    }
  }

  /** A one-digit result is safe from the rest of the loop. */
  lemma {:induction false} OneDigitIsSafe(k: nat, n: nat)
    requires n < k < 10
    ensures BumpFrom(Dec(k), n) == Dec(k)
    decreases n
  {
    if n > 0 {
      DecIsCanonical(k);
      DecIsCanonical(n);
      assert Dec(n) <= Dec(k) ==> Dec(n) == Dec(k);
      assert Value(Dec(n)) != Value(Dec(k));
      OneDigitIsSafe(k, n - 1);
    }
  }

  /** A number whose leading digit is still to come in the loop gets rewritten again. */
  lemma {:induction false} LeadingDigitBites(w: string, n: nat)
    requires Digits(w) && w != "" && w[0] in w && 1 <= (w[0] - '0') as int <= n
    ensures Digits(BumpFrom(w, n)) && Value(BumpFrom(w, n)) > Value(w)
    decreases n
  {
    var d := (w[0] - '0') as nat;
    BumpKeepsDigits(w, n);
    assert d == n ==> Dec(n) == [w[0]];
    assert [w[0]] <= w;
    if Dec(n) <= w {
      BumpFromOnlyRaises(Bump(w, n), n - 1);
    } else {
      LeadingDigitBites(w, n - 1);
    }
  }

  /** From ten on, a number starts with a digit that is still to come in the loop. */
  lemma LeadingDigitIsSmall(k: nat)
    requires k >= 9
    ensures Digits(Dec(k + 1)) && Dec(k + 1) != "" && Dec(k + 1)[0] in Dec(k + 1)
    ensures 1 <= (Dec(k + 1)[0] - '0') as int <= k - 1
  {
    DecIsCanonical(k + 1);
    var first := Dec(k + 1)[0];
    assert first in Dec(k + 1) && IsDigit(first);
    if k == 9 { TenStartsWithOne(k + 1); }
  }

  lemma TenStartsWithOne(n: nat)
    requires n == 10
    ensures Dec(n) != "" && Dec(n)[0] == '1'
  {
    assert Dec(n) == Dec(n / 10) + [DigitOf(n % 10)];
    assert Dec(n / 10) == [DigitOf(n / 10)];
  }

  /** A single placeholder comes out one higher exactly when it is at most eight. */
  lemma PlaceholderShiftsExactly(k: nat, n: nat)
    requires 0 < k <= n
    ensures BumpFrom(Dec(k), n) == Dec(k + 1) <==> k <= 8
  {
    WaitsForItsTurn(k, n);
    DecIsCanonical(k + 1);
    if k <= 8 {
      OneDigitIsSafe(k + 1, k - 1);
    } else {
      LeadingDigitIsSmall(k);
      LeadingDigitBites(Dec(k + 1), k - 1);
    }
  }

  lemma TenBecomesTwenty()
    ensures BumpFrom("10", 8) == "20"
  {
    forall n: nat | 1 < n < 10 ensures Bump("10", n) == "10" {
      assert Dec(n) == [DigitOf(n)] && DigitOf(n) != '1';
      assert "10"[0] == '1';
    }
    assert Dec(1) == "1" && Dec(2) == "2";
    assert Bump("10", 1) == "2" + "10"[1..] == "20";
    assert BumpFrom("10", 4) == BumpFrom("10", 3) == BumpFrom("10", 2) == BumpFrom("10", 1) == "20";
    assert BumpFrom("10", 8) == BumpFrom("10", 7) == BumpFrom("10", 6) == BumpFrom("10", 5) == BumpFrom("10", 4);
  }

  /** The first failing text: with nine arguments, $9 becomes $10 and then $20. */
  lemma NineBecomesTwenty()
    ensures RenumberFrom("$9", 9) == "$20"
  {
    var c := [Param("9")];
    RenumberIsBump(c, 9);
    NineIsBumped();
    assert Render(c) == "$9" && Render([Param("20")]) == "$20";
    assert BumpAllFrom(c, 9) == [Param("20")];
  }

  lemma NineIsBumped()
    ensures BumpFrom("9", 9) == "20"
  {
    assert Dec(9) == "9" && Dec(1) == "1";
    assert Dec(10) == Dec(1) + [DigitOf(0)] == "10";
    assert Bump("9", 9) == "10" + "9"[1..] == "10";
    TenBecomesTwenty();
  }

  // ----- the simultaneous shift -----

  function ShiftPiece(p: Piece): Piece {
    if p.Param? && Digits(p.digits) then Param(Dec(Value(p.digits) + 1)) else p
  }

  function Shift(c: Clause): (r: Clause)
    ensures |r| == |c| && forall i | 0 <= i < |c| :: r[i] == ShiftPiece(c[i])
  {
    if c == [] then [] else [ShiftPiece(c[0])] + Shift(c[1..])
  }

  /** Every placeholder is one of $1..$n, written the usual way. */
  ghost predicate Within(c: Clause, n: nat) {
    forall p | p in c && p.Param? :: exists k :: 0 < k <= n && p.digits == Dec(k)
  }

  lemma DigitRunIsUnique(v: string, r: string, w: string, s: string)
    requires Digits(v) && Digits(w) && !StartsWithDigit(r) && !StartsWithDigit(s) && v + r == w + s
    ensures v == w && r == s
  {
    assert v <= w + s by { assert v == (v + r)[..|v|]; }
    assert w <= v + r by { assert w == (w + s)[..|w|]; }
    DigitsFit(v, w, s);
    DigitsFit(w, v, r);
    assert r == (v + r)[|v|..] && s == (w + s)[|w|..];
  }

  lemma RenderedHead(p: Piece, rest: string, q: Piece, rest': string)
    requires GoodPiece(p) && GoodPiece(q) && !StartsWithDigit(rest) && !StartsWithDigit(rest')
    requires if p.Text? then q == p else q.Param?
    requires RenderPiece(p) + rest == RenderPiece(q) + rest'
    ensures p == q && rest == rest'
  {
    if p.Text? {
      assert (p.text + rest)[|p.text|..] == rest && (p.text + rest')[|p.text|..] == rest';
    } else {
      assert (RenderPiece(p) + rest)[1..] == p.digits + rest;
      assert (RenderPiece(q) + rest')[1..] == q.digits + rest';
      DigitRunIsUnique(p.digits, rest, q.digits, rest');
    }
  }

  /** Equal renderings of clauses with the same texts have the same parameters. */
  lemma {:induction false} RenderIsInjective(c: Clause, d: Clause)
    requires Good(c) && Good(d) && |c| == |d|
    requires forall i | 0 <= i < |c| :: if c[i].Text? then d[i] == c[i] else d[i].Param?
    requires Render(c) == Render(d)
    ensures c == d
  {
    if c != [] {
      GoodTail(c);
      GoodTail(d);
      RenderedStart(c[1..]);
      RenderedStart(d[1..]);
      RenderedHead(c[0], Render(c[1..]), d[0], Render(d[1..]));
      RenderIsInjective(c[1..], d[1..]);
    }
  }

  lemma ShiftKeepsGood(c: Clause, n: nat)
    requires Good(c) && Within(c, n)
    ensures Good(Shift(c))
  {
    forall p | p in Shift(c) ensures GoodPiece(p) {
      var i :| 0 <= i < |c| && Shift(c)[i] == p;
      assert c[i] in c && GoodPiece(c[i]);
      if c[i].Param? { DecIsCanonical(Value(c[i].digits) + 1); }
    }
  }

  /** The piece is a placeholder above $8. */
  predicate AboveEight(p: Piece) {
    p.Param? && Digits(p.digits) && Value(p.digits) > 8
  }

  lemma PieceShiftsExactly(p: Piece, n: nat)
    requires p.Param? && exists k :: 0 < k <= n && p.digits == Dec(k)
    ensures Param(BumpFrom(p.digits, n)) == ShiftPiece(p) <==> !AboveEight(p)
  {
    var k :| 0 < k <= n && p.digits == Dec(k);
    DecIsCanonical(k);
    PlaceholderShiftsExactly(k, n);
  }

  /**
   The renumbering loop is the simultaneous shift of every placeholder by one, and
   changes nothing else, exactly when the clause uses no placeholder above $8. For
   every higher one the loop goes wrong: `$9` becomes `$10`, and then `$20`.
   */
  lemma RenumberingIsShiftExactly(c: Clause, n: nat)
    requires Good(c) && Within(c, n)
    ensures RenumberFrom(Render(c), n) == Render(Shift(c)) <==> forall p | p in c :: !AboveEight(p)
  {
    RenumberIsBump(c, n);
    ShiftKeepsGood(c, n);
    var bumped, shifted := BumpAllFrom(c, n), Shift(c);
    forall i | 0 <= i < |c| ensures bumped[i] == shifted[i] <==> !AboveEight(c[i]) {
      assert c[i] in c;
      if c[i].Param? { PieceShiftsExactly(c[i], n); }
    }
    if forall p | p in c :: !AboveEight(p) {
      assert bumped == shifted;
    }
    if Render(bumped) == Render(shifted) {
      RenderIsInjective(bumped, shifted);
      assert forall i | 0 <= i < |c| :: bumped[i] == shifted[i];
    }
  }

  /** The loop itself, on a string. */
  method Renumber(clause: string, n: nat) returns (where': string)
    ensures where' == RenumberFrom(clause, n)
  {
    where' := clause;
    var i := n;
    while i >= 1
      invariant 0 <= i <= n && RenumberFrom(where', i) == RenumberFrom(clause, n)
    {
      where' := ReplaceAll(where', Mark(i), Mark(i + 1));
      i := i - 1;
    }
  }
}
