/**
 * The pin-string validator: the regular expression of `PinSchema` and the
 * two-pin tuple `ConnectionSchema`, with the regular expression given as a
 * small syntax tree and JavaScript `test` semantics (a match anywhere).
 */
module Connections {
  import opened Strings
  import opened Addressing

  /** The regular-expression constructs the validator uses. */
  datatype Regex =
    | Empty                      // matches the empty string
    | Range(lo: char, hi: char)  // one character in lo..hi, as in `[A-H]`
    | Cat(left: Regex, right: Regex)
    | Alt(left: Regex, right: Regex)
    | LineStart                  // `^` without the multiline flag
    | LineEnd                    // `$` without the multiline flag

  /** `r` matches `s[i..j]`. */
  predicate Matches(r: Regex, s: string, i: nat, j: nat)
    requires i <= j <= |s|
    decreases r
  {
    match r
    case Empty => i == j
    case Range(lo, hi) => j == i + 1 && lo <= s[i] <= hi
    case Cat(a, b) => exists k :: i <= k <= j && Matches(a, s, i, k) && Matches(b, s, k, j)
    case Alt(a, b) => Matches(a, s, i, j) || Matches(b, s, i, j)
    case LineStart => i == j && i == 0
    case LineEnd => i == j && j == |s|
  }

  /** `RegExp.prototype.test`: some substring matches. */
  predicate Test(r: Regex, s: string) {
    exists i, j :: 0 <= i <= j <= |s| && Matches(r, s, i, j)
  }

  /** A literal string, one character at a time. */
  function Literal(lit: string): Regex
    decreases |lit|
  {
    if lit == [] then Empty else Cat(Range(lit[0], lit[0]), Literal(lit[1..]))
  }

  const Column: Regex := Range('A', 'H')

  /** `MCU[A-H][0-3]`. */
  const McuPin: Regex := Cat(Literal("MCU"), Cat(Column, Range('0', '3')))

  /** `MAIN[A-H]([0-9]|1[01])`. */
  const MainPin: Regex := Cat(Literal("MAIN"), Cat(Column, Alt(Range('0', '9'), Cat(Literal("1"), Range('0', '1')))))

  /**
   * `/^MCU[A-H][0-3]|MAIN[A-H]([0-9]|1[01])$/` as JavaScript parses it: the
   * alternation is the outermost operator, so `^` belongs to the MCU branch
   * only and `$` to the MAIN branch only.
   */
  const PinRegex: Regex := Alt(Cat(LineStart, McuPin), Cat(MainPin, LineEnd))

  /** `PinSchema`: the string passes the regular expression. */
  predicate PinSchema(s: string) {
    Test(PinRegex, s)
  }

  /** `ConnectionSchema`: a tuple of exactly two strings, each passing `PinSchema`. */
  predicate ConnectionSchema(values: seq<string>) {
    |values| == 2 && PinSchema(values[0]) && PinSchema(values[1])
  }

  // Matching, construct by construct.

  /** The five characters of an MCU pin name: `MCU`, a column, a row 0..3. */
  predicate McuText(t: string) {
    |t| == 5 && t[..3] == "MCU" && IsColumn(t[3]) && '0' <= t[4] <= '3'
  }

  /** A MAIN pin name: `MAIN`, a column, a row 0..11. */
  predicate MainText(t: string) {
    |t| >= 6 && t[..4] == "MAIN" && IsColumn(t[4]) && IsMainRow(t[5..])
  }

  lemma PinNameCases(t: string)
    ensures IsPinName(t) <==> McuText(t) || MainText(t)
  {
  }

  lemma {:induction false} LiteralThenSplits(lit: string, r: Regex, s: string, i: nat, j: nat)
    requires i <= j <= |s| && Matches(Cat(Literal(lit), r), s, i, j)
    ensures i + |lit| <= j && s[i..i + |lit|] == lit && Matches(r, s, i + |lit|, j)
    decreases |lit|
  {
    var k :| i <= k <= j && Matches(Literal(lit), s, i, k) && Matches(r, s, k, j);
    if lit == [] {
      assert k == i;
    } else {
      var head, tail := Range(lit[0], lit[0]), Literal(lit[1..]);
      assert Matches(Cat(head, tail), s, i, k);
      var m :| i <= m <= k && Matches(head, s, i, m) && Matches(tail, s, m, k);
      assert m == i + 1 && s[i] == lit[0];
      assert Matches(Cat(tail, r), s, i + 1, j);
      LiteralThenSplits(lit[1..], r, s, i + 1, j);
      assert s[i..i + |lit|] == [s[i]] + s[i + 1..i + |lit|];
    }
  }

  lemma {:induction false} LiteralThenJoins(lit: string, r: Regex, s: string, i: nat, j: nat)
    requires i <= j <= |s| && i + |lit| <= j && s[i..i + |lit|] == lit && Matches(r, s, i + |lit|, j)
    ensures Matches(Cat(Literal(lit), r), s, i, j)
    decreases |lit|
  {
    if lit == [] {
      assert Matches(Literal(lit), s, i, i);
    } else {
      var head, tail := Range(lit[0], lit[0]), Literal(lit[1..]);
      assert s[i + 1..i + |lit|] == lit[1..] && s[i] == s[i..i + |lit|][0];
      LiteralThenJoins(lit[1..], r, s, i + 1, j);
      var k :| i + 1 <= k <= j && Matches(tail, s, i + 1, k) && Matches(r, s, k, j);
      assert Matches(head, s, i, i + 1);
      assert Matches(Cat(head, tail), s, i, k);
    }
  }
  /** A literal followed by `r` matches exactly the literal's characters and then a match of `r`. */
  lemma LiteralThen(lit: string, r: Regex, s: string, i: nat, j: nat)
    requires i <= j <= |s|
    ensures Matches(Cat(Literal(lit), r), s, i, j)
        <==> i + |lit| <= j && s[i..i + |lit|] == lit && Matches(r, s, i + |lit|, j)
  {
    if Matches(Cat(Literal(lit), r), s, i, j) {
      LiteralThenSplits(lit, r, s, i, j);
    }
    if i + |lit| <= j && s[i..i + |lit|] == lit && Matches(r, s, i + |lit|, j) {
      LiteralThenJoins(lit, r, s, i, j);
    }
  }

  lemma RangeThen(lo: char, hi: char, r: Regex, s: string, i: nat, j: nat)
    requires i <= j <= |s|
    ensures Matches(Cat(Range(lo, hi), r), s, i, j) <==> i < j && lo <= s[i] <= hi && Matches(r, s, i + 1, j)
  {
    if i < j && lo <= s[i] <= hi && Matches(r, s, i + 1, j) {
      assert Matches(Range(lo, hi), s, i, i + 1);
    }
  }

  /** The MAIN row group `([0-9]|1[01])` matches one digit, or `10`, or `11`. */
  lemma MainRowMatches(s: string, i: nat, j: nat)
    requires i <= j <= |s|
    ensures Matches(Alt(Range('0', '9'), Cat(Literal("1"), Range('0', '1'))), s, i, j) <==> IsMainRow(s[i..j])
  {
    LiteralThen("1", Range('0', '1'), s, i, j);
    if j == i + 2 {
      assert s[i..j][0] == s[i] && s[i..j][1] == s[i + 1];
      assert s[i..i + 1] == [s[i]];
    }
    if j == i + 1 {
      assert s[i..j][0] == s[i];
    }
  }

  lemma McuPinMatches(s: string, i: nat, j: nat)
    requires i <= j <= |s|
    ensures Matches(McuPin, s, i, j) <==> McuText(s[i..j])
  {
    LiteralThen("MCU", Cat(Column, Range('0', '3')), s, i, j);
    if i + 3 <= j {
      RangeThen('A', 'H', Range('0', '3'), s, i + 3, j);
      var t := s[i..j];
      assert t[..3] == s[i..i + 3];
      if j == i + 5 { assert t[3] == s[i + 3] && t[4] == s[i + 4]; }
    }
  }

  lemma MainPinMatches(s: string, i: nat, j: nat)
    requires i <= j <= |s|
    ensures Matches(MainPin, s, i, j) <==> MainText(s[i..j])
  {
    var row := Alt(Range('0', '9'), Cat(Literal("1"), Range('0', '1')));
    LiteralThen("MAIN", Cat(Column, row), s, i, j);
    if i + 4 <= j {
      RangeThen('A', 'H', row, s, i + 4, j);
      var t := s[i..j];
      assert t[..4] == s[i..i + 4];
      if i + 5 <= j {
        MainRowMatches(s, i + 5, j);
        assert t[4] == s[i + 4] && t[5..] == s[i + 5..j];
      }
    }
  }

  /** The MCU branch matches exactly the five characters of an MCU pin name at the start of the string. */
  lemma McuBranch(s: string, i: nat, j: nat)
    requires i <= j <= |s|
    ensures Matches(Cat(LineStart, McuPin), s, i, j) <==> i == 0 && McuText(s[..j])
  {
    if Matches(Cat(LineStart, McuPin), s, i, j) {
      var k :| i <= k <= j && Matches(LineStart, s, i, k) && Matches(McuPin, s, k, j);
      McuPinMatches(s, 0, j);
      assert s[0..j] == s[..j];
    }
    if i == 0 && McuText(s[..j]) {
      McuPinMatches(s, 0, j);
      assert s[0..j] == s[..j];
      assert Matches(LineStart, s, 0, 0);
    }
  }

  /** The MAIN branch matches a MAIN pin name that ends the string. */
  lemma MainBranch(s: string, i: nat, j: nat)
    requires i <= j <= |s|
    ensures Matches(Cat(MainPin, LineEnd), s, i, j) <==> j == |s| && MainText(s[i..])
  {
    if Matches(Cat(MainPin, LineEnd), s, i, j) {
      var k :| i <= k <= j && Matches(MainPin, s, i, k) && Matches(LineEnd, s, k, j);
      MainPinMatches(s, i, k);
      assert s[i..k] == s[i..];
    }
    if j == |s| && MainText(s[i..]) {
      MainPinMatches(s, i, j);
      assert s[i..j] == s[i..];
      assert Matches(LineEnd, s, j, j);
    }
  }

  // What the validator accepts.

  /** The string begins with an MCU pin name. */
  predicate StartsWithMcuPin(s: string) {
    |s| >= 5 && McuText(s[..5])
  }

  /** The string ends with a MAIN pin name. */
  predicate EndsWithMainPin(s: string) {
    exists i :: 0 <= i <= |s| && MainText(s[i..])
  }

  /**
   * Because the alternation binds loosest, the validator accepts exactly the
   * strings that begin with an MCU pin name or end with a MAIN pin name.
   */
  lemma PinSchemaAccepts(s: string)
    ensures PinSchema(s) <==> StartsWithMcuPin(s) || EndsWithMainPin(s)
  {
    if PinSchema(s) {
      var i, j :| 0 <= i <= j <= |s| && Matches(PinRegex, s, i, j);
      McuBranch(s, i, j);
      MainBranch(s, i, j);
    }
    if StartsWithMcuPin(s) {
      McuBranch(s, 0, 5);
      assert Matches(PinRegex, s, 0, 5);
    }
    if EndsWithMainPin(s) {
      var i :| 0 <= i <= |s| && MainText(s[i..]);
      MainBranch(s, i, |s|);
      assert Matches(PinRegex, s, i, |s|);
    }
  }

  /** Every pin name passes. */
  lemma PinNamesPass(s: string)
    requires IsPinName(s)
    ensures PinSchema(s)
  {
    PinSchemaAccepts(s);
    if McuText(s) {
      assert s[..5] == s;
    } else {
      assert s[0..] == s;
    }
  }

  /** Anything may follow an MCU pin name. */
  lemma AcceptsAfterMcuPin(pin: string, rest: string)
    requires McuText(pin)
    ensures PinSchema(pin + rest)
  {
    var s := pin + rest;
    assert s[..5] == pin;
    PinSchemaAccepts(s);
  }

  /** Anything may precede a MAIN pin name. */
  lemma AcceptsBeforeMainPin(rest: string, pin: string)
    requires MainText(pin)
    ensures PinSchema(rest + pin)
  {
    var s := rest + pin;
    assert s[|rest|..] == pin;
    PinSchemaAccepts(s);
  }

  /** Row 4 of the MCU board and row 12 of the main board, which the row types name, are rejected. */
  lemma RejectsRowsBeyondBoard()
    ensures !PinSchema("MCUA4") && !PinSchema("MAINA12")
  {
    PinSchemaAccepts("MCUA4");
    PinSchemaAccepts("MAINA12");
    var s := "MAINA12";
    forall i | 0 <= i <= |s| ensures !MainText(s[i..]) {
      if i == 0 { assert s[i..][5..] == "12"; }
    }
    var t := "MCUA4";
    forall i | 0 <= i <= |t| ensures !MainText(t[i..]) {
    }
    assert t[..5] == t;
  }

  /** A pair of pin names passes `ConnectionSchema`; a list of any other length does not. */
  lemma ConnectionOfPins(a: string, b: string)
    requires IsPinName(a) && IsPinName(b)
    ensures ConnectionSchema([a, b])
    ensures !ConnectionSchema([a]) && !ConnectionSchema([a, b, a])
  {
    PinNamesPass(a);
    PinNamesPass(b);
  }

  // The validator as evidently intended.

  /** `/^(MCU[A-H][0-3]|MAIN[A-H]([0-9]|1[01]))$/`: one pin name and nothing else. */
  const AnchoredPinRegex: Regex := Cat(LineStart, Cat(Alt(McuPin, MainPin), LineEnd))

  predicate PinSchemaAnchored(s: string) {
    Test(AnchoredPinRegex, s)
  }

  predicate ConnectionSchemaAnchored(values: seq<string>) {
    |values| == 2 && PinSchemaAnchored(values[0]) && PinSchemaAnchored(values[1])
  }

  /** The anchored expression accepts exactly the pin names. */
  lemma AnchoredAcceptsPinNames(s: string)
    ensures PinSchemaAnchored(s) <==> IsPinName(s)
  {
    var body := Alt(McuPin, MainPin);
    if PinSchemaAnchored(s) {
      var i, j :| 0 <= i <= j <= |s| && Matches(AnchoredPinRegex, s, i, j);
      var k :| i <= k <= j && Matches(LineStart, s, i, k) && Matches(Cat(body, LineEnd), s, k, j);
      var m :| 0 <= m <= j && Matches(body, s, 0, m) && Matches(LineEnd, s, m, j);
      McuPinMatches(s, 0, m);
      MainPinMatches(s, 0, m);
      assert s[0..m] == s;
    }
    if IsPinName(s) {
      McuPinMatches(s, 0, |s|);
      MainPinMatches(s, 0, |s|);
      assert s[0..|s|] == s;
      assert Matches(body, s, 0, |s|);
      assert Matches(LineEnd, s, |s|, |s|);
      assert Matches(Cat(body, LineEnd), s, 0, |s|);
      assert Matches(LineStart, s, 0, 0);
      assert Matches(AnchoredPinRegex, s, 0, |s|);
    }
  }

  /** Text after an MCU pin name passes `PinSchema`'s expression, though the string is no pin. */
  lemma AcceptsTextAfterMcuPin()
    ensures PinSchema("MCUA0x") && !IsPinName("MCUA0x") && !PinSchemaAnchored("MCUA0x")
  {
    assert McuText("MCUA0") by { assert "MCUA0"[..3] == "MCU"; }
    AcceptsAfterMcuPin("MCUA0", "x");
    assert "MCUA0" + "x" == "MCUA0x";
    AnchoredAcceptsPinNames("MCUA0x");
    PinNameCases("MCUA0x");
  }

  /** Text before a MAIN pin name passes `PinSchema`'s expression, though the string is no pin. */
  lemma AcceptsTextBeforeMainPin()
    ensures PinSchema("xMAINA0") && !IsPinName("xMAINA0") && !PinSchemaAnchored("xMAINA0")
  {
    assert MainText("MAINA0") by { assert "MAINA0"[..4] == "MAIN" && "MAINA0"[5..] == "0"; }
    AcceptsBeforeMainPin("x", "MAINA0");
    assert "x" + "MAINA0" == "xMAINA0";
    AnchoredAcceptsPinNames("xMAINA0");
    PinNameCases("xMAINA0");
    assert "xMAINA0"[..4] != "MAIN";
  }
}
