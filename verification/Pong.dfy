/** splitPong and ParsePong of internal/mcproto/protocol.go, over code points. */
module Pong {
  import opened Optional
  import opened Text

  /** splitPong's variables. */
  datatype Scan = Scan(fields: seq<string>, cur: string, escape: bool)

  function Step(sc: Scan, c: char): Scan {
    if sc.escape then Scan(sc.fields, sc.cur + [c], false)
    else if c == '\\' then Scan(sc.fields, sc.cur, true)
    else if c == ';' then Scan(sc.fields + [sc.cur], "", false)
    else Scan(sc.fields, sc.cur + [c], false)
  }

  function Scanned(sc: Scan, s: string): Scan {
    if s == [] then sc else Step(Scanned(sc, s[..|s|-1]), s[|s|-1])
  }

  const START := Scan([], "", false)

  function Split(s: string): seq<string> {
    Scanned(START, s).fields + [Scanned(START, s).cur]
  }

  /** s ends in a backslash that escapes nothing yet. */
  predicate MidEscape(s: string) {
    Scanned(START, s).escape
  }

  method SplitPong(s: string) returns (fields: seq<string>)
    ensures fields == Split(s) && fields != []
  {
    fields := [];
    var cur, escape := "", false;
    for i := 0 to |s|
      invariant Scanned(START, s[..i]) == Scan(fields, cur, escape)
    {
      assert s[..i + 1][..i] == s[..i];
      var r := s[i];
      if escape {
        escape := false;
        cur := cur + [r];
      } else if r == '\\' {
        escape := true;
      } else if r == ';' {
        fields := fields + [cur];
        cur := "";
      } else {
        cur := cur + [r];
      }
    }
    assert s[..|s|] == s;
    fields := fields + [cur];
  }

  // ---------- the inverse ----------

  function Escape(f: string): string {
    if f == [] then ""
    else Escape(f[..|f|-1]) + if f[|f|-1] == '\\' || f[|f|-1] == ';' then ['\\', f[|f|-1]] else [f[|f|-1]]
  }

  function Join(fs: seq<string>): string
    requires fs != []
  {
    if |fs| == 1 then Escape(fs[0]) else Join(fs[..|fs|-1]) + ";" + Escape(fs[|fs|-1])
  }

  lemma {:induction false} ScannedConcat(sc: Scan, a: string, b: string)
    ensures Scanned(sc, a + b) == Scanned(Scanned(sc, a), b)
  {
    if b == [] {
      assert a + b == a;
    } else {
      assert (a + b)[..|a + b|-1] == a + b[..|b|-1];
      ScannedConcat(sc, a, b[..|b|-1]);
    }
  }

  lemma ScannedShort(sc: Scan, t: string)
    requires 1 <= |t| <= 2
    ensures Scanned(sc, t) == if |t| == 1 then Step(sc, t[0]) else Step(Step(sc, t[0]), t[1])
  {
    assert t[..1][..0] == [];
  }

  /** Scanning an escaped field adds exactly that field to the current one. */
  lemma {:induction false} ScannedEscape(sc: Scan, f: string)
    requires !sc.escape
    ensures Scanned(sc, Escape(f)) == Scan(sc.fields, sc.cur + f, false)
  {
    if f == [] {
      assert sc.cur + f == sc.cur;
    } else {
      var c, g := f[|f|-1], f[..|f|-1];
      var tail := if c == '\\' || c == ';' then ['\\', c] else [c];
      ScannedEscape(sc, g);
      ScannedConcat(sc, Escape(g), tail);
      assert sc.cur + f == sc.cur + g + [c];
      ScannedShort(Scan(sc.fields, sc.cur + g, false), tail);
    }
  }

  lemma {:induction false} ScannedJoin(fs: seq<string>)
    requires fs != []
    ensures Scanned(START, Join(fs)) == Scan(fs[..|fs|-1], fs[|fs|-1], false)
  {
    if |fs| == 1 {
      ScannedEscape(START, fs[0]);
    } else {
      var gs := fs[..|fs|-1];
      ScannedJoin(gs);
      ScannedConcat(START, Join(gs), ";");
      ScannedConcat(START, Join(gs) + ";", Escape(fs[|fs|-1]));
      assert gs[..|gs|-1] + [gs[|gs|-1]] == gs;
      ScannedEscape(Scan(gs, "", false), fs[|fs|-1]);
    }
  }

  /** Splitting undoes joining, on every non-empty list of fields. */
  lemma SplitJoin(fs: seq<string>)
    requires fs != []
    ensures Split(Join(fs)) == fs
  {
    ScannedJoin(fs);
  }

  /** Joining what was split gives a text with the same fields, for every text. */
  lemma JoinIsCanonical(s: string)
    ensures Split(Join(Split(s))) == Split(s)
  {
    SplitJoin(Split(s));
  }

  // ---------- nothing is lost ----------

  function Total(fs: seq<string>): nat {
    if fs == [] then 0 else Total(fs[..|fs|-1]) + |fs[|fs|-1]|
  }

  /** Backslashes read as the start of an escape. */
  function Escapes(s: string): nat {
    if s == [] then 0
    else Escapes(s[..|s|-1]) + if s[|s|-1] == '\\' && !MidEscape(s[..|s|-1]) then 1 else 0
  }

  lemma {:induction false} Accounting(s: string)
    ensures Total(Scanned(START, s).fields) + |Scanned(START, s).cur| + |Scanned(START, s).fields| + Escapes(s) == |s|
  {
    if s != [] {
      var before := Scanned(START, s[..|s|-1]);
      Accounting(s[..|s|-1]);
      assert (before.fields + [before.cur])[..|before.fields|] == before.fields;
    }
  }

  /** Field lengths, separators and escapes add up to the length of the text. */
  lemma NothingLost(s: string)
    ensures Total(Split(s)) + (|Split(s)| - 1) + Escapes(s) == |s|
  {
    var sc := Scanned(START, s);
    Accounting(s);
    assert (sc.fields + [sc.cur])[..|sc.fields|] == sc.fields;
  }

  // ---------- stability ----------

  lemma {:induction false} FieldsPrefix(fs: seq<string>, b: string)
    ensures var x, y := Scanned(START, b), Scanned(Scan(fs, "", false), b);
      y == Scan(fs + x.fields, x.cur, x.escape)
  {
    if b == [] {
      assert fs + [] == fs;
    } else {
      FieldsPrefix(fs, b[..|b|-1]);
      var x := Scanned(START, b[..|b|-1]);
      assert fs + x.fields + [x.cur] == fs + (x.fields + [x.cur]);
    }
  }

  /** An unescaped separator splits a text into two that are split on their own. */
  lemma SplitAtSeparator(a: string, b: string)
    requires !MidEscape(a)
    ensures Split(a + ";" + b) == Split(a) + Split(b)
  {
    var sc := Scanned(START, a);
    ScannedConcat(START, a, ";");
    ScannedConcat(START, a + ";", b);
    FieldsPrefix(sc.fields + [sc.cur], b);
  }

  /** After a dangling backslash the separator is part of the field, so the two sides never come
      apart there: the condition of SplitAtSeparator is exact. */
  lemma MidEscapeSwallowsSeparator(a: string, b: string)
    ensures |Split(a + ";" + b)| == |Split(a)| + |Split(b)| <==> !MidEscape(a)
  {
    if MidEscape(a) {
      ScannedConcat(START, a, ";");
      ScannedConcat(START, a + ";", b);
      FieldCount(Scanned(START, a + ";"), b);
    } else {
      SplitAtSeparator(a, b);
    }
  }

  /** How many fields a text closes does not depend on what was read before it, short of an escape. */
  lemma {:induction false} FieldCount(sc: Scan, b: string)
    requires !sc.escape
    ensures |Scanned(sc, b).fields| == |sc.fields| + |Scanned(START, b).fields|
    ensures Scanned(sc, b).escape == Scanned(START, b).escape
  {
    if b != [] { FieldCount(sc, b[..|b|-1]); }
  }

  // ---------- ParsePong ----------

  datatype Advertisement = Advertisement(protocol: int, version: string)

  const TWO31 := 0x8000_0000

  /** int32(n) */
  function Int32(n: int): int {
    (n + TWO31) % (2 * TWO31) - TWO31
  }

  function ParsePong(pong: string): Option<Advertisement> {
    var fields := Split(pong);
    if |fields| < 4 then None
    else match ParseInt(TrimSpace(fields[2]), TWO31)
      case None => None
      case Some(n) => if n <= 0 then None else Some(Advertisement(Int32(n), fields[3]))
  }

  /** Every accepted number is in 1..2^31-1 and survives the conversion to int32. */
  lemma AcceptedInRange(pong: string)
    requires ParsePong(pong).Some?
    ensures 1 <= ParsePong(pong).value.protocol < TWO31
    ensures ParseInt(TrimSpace(Split(pong)[2]), TWO31) == Some(ParsePong(pong).value.protocol)
  {
  }

  /** Once a text holds four whole fields, nothing appended after a separator changes the result. */
  lemma LaterFieldsDoNotMatter(a: string, b: string)
    requires !MidEscape(a) && |Split(a)| >= 4
    ensures ParsePong(a + ";" + b) == ParsePong(a)
  {
    SplitAtSeparator(a, b);
  }

  lemma FieldsAreRead(edition: string, name: string, number: string, n: nat, version: string, rest: seq<string>)
    requires ParseInt(TrimSpace(number), TWO31) == Some(n) && 1 <= n < TWO31
    ensures ParsePong(Join([edition, name, number, version] + rest)) == Some(Advertisement(n, version))
  {
    SplitJoin([edition, name, number, version] + rest);
  }

  lemma NumberIsRead(left: string, plus: bool, n: nat, right: string, number: string)
    requires n < TWO31 && Blank(left) && Blank(right) && number == left + Signed(plus, n) + right
    ensures ParseInt(TrimSpace(number), TWO31) == Some(n)
  {
    SignedIsTrimmed(plus, n);
    TrimPadded(left, Signed(plus, n), right);
    ParseIntReads(n, TWO31);
  }

  /** Every advertisement with a number in 1..2^31-1 is read back from its own pong, whatever
      separators and backslashes its name and version contain, and whatever blanks or plus sign the
      number has around it. */
  lemma AdvertisedIsRead(
    edition: string, name: string, left: string, plus: bool, n: nat, right: string, number: string, version: string,
    rest: seq<string>)
    requires 1 <= n < TWO31 && Blank(left) && Blank(right) && number == left + Signed(plus, n) + right
    ensures ParsePong(Join([edition, name, number, version] + rest)) == Some(Advertisement(n, version))
  {
    NumberIsRead(left, plus, n, right, number);
    FieldsAreRead(edition, name, number, n, version, rest);
  }

  function Signed(plus: bool, n: nat): string {
    if plus then "+" + Decimal(n) else Decimal(n)
  }

  lemma SignedIsTrimmed(plus: bool, n: nat)
    ensures Trimmed(Signed(plus, n))
  {
    DecimalDigits(n);
    var d := Decimal(n);
    assert ("+" + d)[|"+" + d| - 1] == d[|d| - 1];
  }

  /** A pong is refused exactly when it has fewer than four fields, or its third, trimmed, is no
      number in 1..2^31-1; numbers too great and negative ones included. */
  lemma RefusedExactly(pong: string)
    ensures ParsePong(pong).None? <==>
      |Split(pong)| < 4 || !exists n: nat :: 1 <= n < TWO31 && ParseInt(TrimSpace(Split(pong)[2]), TWO31) == Some(n)
  {
  }
}
