/** The parts of Go's strings and strconv that the bot leans on, over code points. */
module Text {
  import opened Optional

  /** unicode.IsSpace */
  predicate IsSpace(c: char) {
    c in {'\t', '\n', '\U{0B}', '\U{0C}', '\r', ' ', '\U{85}', '\U{A0}', '\U{1680}',
          '\U{2028}', '\U{2029}', '\U{202F}', '\U{205F}', '\U{3000}'}
    || '\U{2000}' <= c <= '\U{200A}'
  }

  /** By code point: the controls from tab to carriage return, the next-line control, and the characters
      Unicode calls separators of words, lines or paragraphs. */
  lemma SpacesAre(c: char)
    ensures var n := c as int;
      IsSpace(c) <==>
        9 <= n <= 13 || n == 0x85 || n in {0x20, 0xA0, 0x1680, 0x202F, 0x205F, 0x3000} || 0x2000 <= n <= 0x200A
        || 0x2028 <= n <= 0x2029
  {
  }

  /** strings.TrimSpace */
  function TrimSpace(s: string): string {
    if s == [] then s
    else if IsSpace(s[0]) then TrimSpace(s[1..])
    else if IsSpace(s[|s|-1]) then TrimSpace(s[..|s|-1])
    else s
  }

  predicate IsDigit(c: char) {
    '0' <= c <= '9'
  }

  predicate AllDigits(s: string) {
    forall i | 0 <= i < |s| :: IsDigit(s[i])
  }

  function Value(s: string): nat
    requires AllDigits(s)
  {
    if s == [] then 0 else 10 * Value(s[..|s|-1]) + (s[|s|-1] as int - '0' as int)
  }

  /** strconv.ParseUint with base 10, for values below limit. */
  function ParseUint(s: string, limit: nat): Option<int> {
    if s != [] && AllDigits(s) && Value(s) < limit then Some(Value(s)) else None
  }

  /** strconv.ParseInt with base 10; limit is one more than the greatest value. */
  function ParseInt(s: string, limit: nat): Option<int> {
    if s != [] && s[0] == '-' then
      match ParseUint(s[1..], limit + 1) case None => None case Some(n) => Some(-n)
    else if s != [] && s[0] == '+' then ParseUint(s[1..], limit)
    else ParseUint(s, limit)
  }

  /** strconv.Itoa on naturals. */
  function Decimal(n: nat): string {
    if n < 10 then [('0' as int + n) as char] else Decimal(n / 10) + [('0' as int + n % 10) as char]
  }

  lemma {:induction false} DecimalValue(n: nat)
    ensures Decimal(n) != [] && AllDigits(Decimal(n)) && Value(Decimal(n)) == n
  {
    var d := Decimal(n);
    if n < 10 {
      assert d[..|d|-1] == [];
    } else {
      DecimalValue(n / 10);
      assert d[..|d|-1] == Decimal(n / 10);
    }
  }

  /** Surrounding blanks do not matter to a field that is then read as a number. */
  lemma TrimDecimal(n: nat)
    ensures TrimSpace(Decimal(n)) == Decimal(n)
  {
    DecimalValue(n);
  }

  // ---------- blanks ----------

  predicate Blank(s: string) {
    forall i | 0 <= i < |s| :: IsSpace(s[i])
  }

  /** No blank at either end. */
  predicate Trimmed(s: string) {
    s == [] || (!IsSpace(s[0]) && !IsSpace(s[|s|-1]))
  }

  /** What TrimSpace takes off is blank, and all of it. */
  lemma {:induction false} TrimTakesBlanks(s: string) returns (left: string, right: string)
    ensures s == left + TrimSpace(s) + right && Blank(left) && Blank(right) && Trimmed(TrimSpace(s))
    decreases |s|
  {
    left, right := "", "";
    if s != [] && IsSpace(s[0]) {
      left, right := TrimTakesBlanks(s[1..]);
      left := [s[0]] + left;
    } else if s != [] && IsSpace(s[|s|-1]) {
      left, right := TrimTakesBlanks(s[..|s|-1]);
      right := right + [s[|s|-1]];
    }
  }

  /** A text with blanks around it is trimmed to the text. */
  lemma {:induction false} TrimPadded(left: string, s: string, right: string)
    requires Blank(left) && Blank(right) && Trimmed(s)
    ensures TrimSpace(left + s + right) == s
    decreases |left| + |right|
  {
    var padded := left + s + right;
    if left != [] {
      assert padded[1..] == left[1..] + s + right;
      TrimPadded(left[1..], s, right);
    } else if right != [] {
      assert padded[..|padded|-1] == left + s + right[..|right|-1];
      TrimPadded(left, s, right[..|right|-1]);
      if s == [] { TrimPadded(left, s, right[1..]); assert padded[1..] == left + s + right[1..]; }
    } else {
      assert padded == s;
    }
  }

  lemma TrimTwice(s: string)
    ensures TrimSpace(TrimSpace(s)) == TrimSpace(s)
  {
    var left, right := TrimTakesBlanks(s);
  }

  // ---------- numbers ----------

  lemma DecimalDigits(n: nat)
    ensures Decimal(n) != [] && IsDigit(Decimal(n)[0]) && Trimmed(Decimal(n))
  {
    DecimalValue(n);
  }

  /** A numeral is read back, with or without a sign, exactly when its value is in range. */
  lemma ParseIntReads(n: nat, limit: nat)
    requires 0 < limit
    ensures ParseInt(Decimal(n), limit) == ParseInt("+" + Decimal(n), limit) == if n < limit then Some(n) else None
    ensures ParseInt("-" + Decimal(n), limit) == if n <= limit then Some(-(n as int)) else None
  {
    DecimalValue(n);
    DecimalDigits(n);
    assert ("+" + Decimal(n))[1..] == Decimal(n) && ("-" + Decimal(n))[1..] == Decimal(n);
  }

  /** An unsigned numeral takes no sign. */
  lemma ParseUintReads(n: nat, limit: nat)
    ensures ParseUint(Decimal(n), limit) == if n < limit then Some(n) else None
    ensures ParseUint("+" + Decimal(n), limit) == None && ParseUint("-" + Decimal(n), limit) == None
  {
    DecimalValue(n);
    assert !AllDigits("+" + Decimal(n)) by { assert !IsDigit(("+" + Decimal(n))[0]); }
    assert !AllDigits("-" + Decimal(n)) by { assert !IsDigit(("-" + Decimal(n))[0]); }
  }

  /** Zeros in front do not change a number. */
  lemma {:induction false} LeadingZero(s: string)
    requires AllDigits(s)
    ensures AllDigits("0" + s) && Value("0" + s) == Value(s)
  {
    var t := "0" + s;
    if s == [] {
      assert t[..0] == [];
    } else {
      LeadingZero(s[..|s|-1]);
      assert t[..|t|-1] == "0" + s[..|s|-1];
    }
  }

  /** Anything read as a number is a sign and digits. */
  lemma ParseIntShape(s: string, limit: nat)
    requires 0 < limit && ParseInt(s, limit).Some?
    ensures s != [] && (AllDigits(s) || ((s[0] == '-' || s[0] == '+') && s[1..] != [] && AllDigits(s[1..])))
    ensures -(limit as int) <= ParseInt(s, limit).value < limit
  {
  }
}
