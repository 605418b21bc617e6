/**
 * Pin addressing for the wiring router: the devices of the switch fabric, the
 * linear vertex number of every contact, the human-readable label of every
 * vertex, and the parsing of symbolic breadboard pins such as `MCUH0` and `MAINA11`.
 */
module Addressing {
  import opened Strings

  datatype DeviceType = BaseDevice | Multiplexer | Breadboard

  /** A device: its number and its type. */
  datatype Device = Device(number: int, kind: DeviceType)

  /** The pin families `getGraphVertexID` distinguishes: breadboard pins and multiplexer X and Y pins. */
  datatype PinKind = P | X | Y

  const Mux1 := Device(0, Multiplexer)
  const Mux2 := Device(1, Multiplexer)
  const MainBreadboard := Device(3, Breadboard)
  const McuBreadboard := Device(4, Breadboard)

  /** 2 multiplexers of 16 X and 8 Y pins, the 24-pin main breadboard and the 8 used MCU breadboard pins. */
  const VertexCount: nat := 2 * (16 + 8) + 1 * 24 + 1 * 8

  /** `getGraphVertexID`: the linear vertex number of a device pin, -1 for a device it does not know. */
  function GetGraphVertexID(device: Device, kind: PinKind, pinIndex: int): int {
    if device.kind == Multiplexer then
      device.number * 24 + (if kind == X then pinIndex else 16 + pinIndex)
    else if device.kind == Breadboard && device.number == 3 then
      2 * 24 + pinIndex
    else if device.kind == Breadboard && device.number == 4 then
      2 * 24 + 24 + pinIndex
    else
      -1
  }

  /** The contacts of the fabric: X and Y pins of both multiplexers and the pins of both breadboards. */
  predicate IsContact(device: Device, kind: PinKind, pinIndex: int) {
    || ((device == Mux1 || device == Mux2) && kind == X && 0 <= pinIndex < 16)
    || ((device == Mux1 || device == Mux2) && kind == Y && 0 <= pinIndex < 8)
    || (device == MainBreadboard && kind == P && 0 <= pinIndex < 24)
    || (device == McuBreadboard && kind == P && 0 <= pinIndex < 8)
  }

  /** The contact a vertex number stands for (the inverse of `GetGraphVertexID`). */
  function ContactOf(v: nat): (c: (Device, PinKind, int))
    requires v < VertexCount
    ensures IsContact(c.0, c.1, c.2) && GetGraphVertexID(c.0, c.1, c.2) == v
  {
    if v < 16 then (Mux1, X, v)
    else if v < 24 then (Mux1, Y, v - 16)
    else if v < 40 then (Mux2, X, v - 24)
    else if v < 48 then (Mux2, Y, v - 40)
    else if v < 72 then (MainBreadboard, P, v - 48)
    else (McuBreadboard, P, v - 72)
  }

  /**
   * Vertex numbering is a bijection between the contacts and [0, 80): every
   * contact lands in range and is recovered from its number.
   */
  lemma VertexNumbering(device: Device, kind: PinKind, pinIndex: int)
    requires IsContact(device, kind, pinIndex)
    ensures 0 <= GetGraphVertexID(device, kind, pinIndex) < VertexCount
    ensures ContactOf(GetGraphVertexID(device, kind, pinIndex) as nat) == (device, kind, pinIndex)
  {
  }

  /** No two contacts share a vertex number. */
  lemma VertexIdInjective(d1: Device, k1: PinKind, i1: int, d2: Device, k2: PinKind, i2: int)
    requires IsContact(d1, k1, i1) && IsContact(d2, k2, i2)
    requires GetGraphVertexID(d1, k1, i1) == GetGraphVertexID(d2, k2, i2)
    ensures d1 == d2 && k1 == k2 && i1 == i2
  {
    VertexNumbering(d1, k1, i1);
    VertexNumbering(d2, k2, i2);
  }

  /** `isBreadboardPin`: the vertices 48..71 of the main breadboard and 72..79 of the MCU breadboard. */
  predicate IsBreadboardPin(pin: int) {
    var mainBreadboardStart, mainBreadboardEnd := 2 * 24, 2 * 24 + 23;
    var mcuBreadboardStart, mcuBreadboardEnd := 3 * 24, 3 * 24 + 7;
    (mainBreadboardStart <= pin <= mainBreadboardEnd) || (mcuBreadboardStart <= pin <= mcuBreadboardEnd)
  }

  /** The label of a multiplexer pin after the device name: `x<i>` or `y<k>`. */
  function SwitchPinLabel(v: nat): string
    requires v < 48
  {
    var pinIndex := v % 24;
    if pinIndex < 16 then "x" + NatToString(pinIndex) else "y" + NatToString(pinIndex - 16)
  }

  /** `printDeviceSpecifications`: `MUX<n> x<i>`, `MUX<n> y<k>`, `MainBreadboard <i>` or `MCUBreadboard <i>`. */
  function DeviceSpecification(vertexID: nat): string {
    var numMultiplexers, multiplexerPins, mainBreadboardPins := 2, 24, 24;
    if vertexID < numMultiplexers * multiplexerPins then
      var deviceId := vertexID / multiplexerPins;
      "MUX" + NatToString(deviceId + 1) + " " + SwitchPinLabel(vertexID)
    else if vertexID < numMultiplexers * multiplexerPins + mainBreadboardPins then
      "MainBreadboard " + NatToString(vertexID - numMultiplexers * multiplexerPins)
    else
      "MCUBreadboard " + NatToString(vertexID - (numMultiplexers * multiplexerPins + mainBreadboardPins))
  }

  /** The label a contact is meant to print as. */
  function ContactLabel(device: Device, kind: PinKind, pinIndex: nat): string
    requires IsContact(device, kind, pinIndex)
  {
    if device.kind == Multiplexer then
      "MUX" + NatToString(device.number + 1) + " " + (if kind == X then "x" else "y") + NatToString(pinIndex)
    else if device == MainBreadboard then
      "MainBreadboard " + NatToString(pinIndex)
    else
      "MCUBreadboard " + NatToString(pinIndex)
  }

  /** `printDeviceSpecifications` inverts `getGraphVertexID` into the contact's own label. */
  lemma DescribesContact(device: Device, kind: PinKind, pinIndex: int)
    requires IsContact(device, kind, pinIndex)
    ensures DeviceSpecification(GetGraphVertexID(device, kind, pinIndex) as nat)
         == ContactLabel(device, kind, pinIndex as nat)
  {
    var v := GetGraphVertexID(device, kind, pinIndex);
    if device == Mux1 {
      assert v / 24 == 0 && v % 24 == (if kind == X then pinIndex else 16 + pinIndex);
    } else if device == Mux2 {
      assert v / 24 == 1 && v % 24 == (if kind == X then pinIndex else 16 + pinIndex);
    }
  }

  /** The shape of a label, as the command emitter reads it back. */
  lemma SpecificationShape(v: nat)
    ensures |DeviceSpecification(v)| >= 7
    ensures DeviceSpecification(v)[1] == (if v < 48 then 'U' else if v < 72 then 'a' else 'C')
    ensures DeviceSpecification(v)[..4] == "MUX1" <==> v < 24
    ensures DeviceSpecification(v)[..4] == "MUX2" <==> 24 <= v < 48
    ensures v < 48 ==> DeviceSpecification(v)[5..] == SwitchPinLabel(v)
    ensures DeviceSpecification(v)[0] == 'M'
    ensures IsDigit(DeviceSpecification(v)[|DeviceSpecification(v)| - 1])
    ensures Free(DeviceSpecification(v), '-')
  {
    if v < 48 {
      MuxSpecificationShape(v);
    } else if v < 72 {
      BoardSpecificationShape("MainBreadboard ", NatToString(v - 48));
    } else {
      BoardSpecificationShape("MCUBreadboard ", NatToString(v - 72));
    }
  }

  lemma MuxSpecificationShape(v: nat)
    requires v < 48
    ensures var s := DeviceSpecification(v);
      |s| >= 7 && s[1] == 'U' && s[0] == 'M'
      && s[..4] == (if v < 24 then "MUX1" else "MUX2")
      && s[5..] == SwitchPinLabel(v)
      && IsDigit(s[|s| - 1]) && Free(s, '-')
  {
    var s := DeviceSpecification(v);
    var n := NatToString(v / 24 + 1);
    var p := SwitchPinLabel(v);
    assert s == "MUX" + n + " " + p;
    assert |n| == 1 && n[0] == (if v < 24 then '1' else '2');
    assert s[..4] == "MUX" + n;
    assert s[5..] == p;
    assert s[|s| - 1] == p[|p| - 1];
  }

  /** A breadboard label: a 14- or 15-letter prefix followed by a number. */
  lemma BoardSpecificationShape(prefix: string, n: string)
    requires prefix == "MainBreadboard " || prefix == "MCUBreadboard "
    requires |n| > 0 && AllDigits(n)
    ensures var s := prefix + n;
      |s| >= 7 && s[1] == prefix[1] && s[0] == 'M'
      && s[..4] == prefix[..4] && s[..4] != "MUX1" && s[..4] != "MUX2"
      && IsDigit(s[|s| - 1]) && Free(s, '-')
  {
    var s := prefix + n;
    assert s[..4] == prefix[..4];
    assert s[|s| - 1] == n[|n| - 1];
    assert forall i :: 0 <= i < |s| ==> s[i] == if i < |prefix| then prefix[i] else n[i - |prefix|];
  }

  /** Distinct vertices have distinct labels. */
  lemma SpecificationInjective(u: nat, v: nat)
    requires u < VertexCount && v < VertexCount
    requires DeviceSpecification(u) == DeviceSpecification(v)
    ensures u == v
  {
    SpecificationShape(u);
    SpecificationShape(v);
    var s := DeviceSpecification(u);
    if u < 48 {
      SwitchPinLabelInjective(u, v);
    } else if u < 72 {
      assert s[15..] == NatToString(u - 48);
      assert DeviceSpecification(v)[15..] == NatToString(v - 48);
      NatToStringInjective(u - 48, v - 48);
    } else {
      assert s[14..] == NatToString(u - 72);
      assert DeviceSpecification(v)[14..] == NatToString(v - 72);
      NatToStringInjective(u - 72, v - 72);
    }
  }

  /** Within one multiplexer, the switch pin labels `x<i>` and `y<k>` are distinct. */
  lemma SwitchPinLabelInjective(u: nat, v: nat)
    requires u < 48 && v < 48 && (u < 24 <==> v < 24)
    requires SwitchPinLabel(u) == SwitchPinLabel(v)
    ensures u == v
  {
    var pu, pv := SwitchPinLabel(u), SwitchPinLabel(v);
    assert pu[0] == pv[0] && pu[1..] == pv[1..];
    if u % 24 < 16 {
      NatToStringInjective(u % 24, v % 24);
    } else {
      NatToStringInjective(u % 24 - 16, v % 24 - 16);
    }
  }

  // Symbolic breadboard pins.

  datatype Board = MCU | MAIN

  /** A symbolic pin: board, column letter and row, printed as `MCU<column><row>` or `MAIN<column><row>`. */
  datatype Pin = Pin(board: Board, column: char, row: nat)

  predicate IsColumn(c: char) {
    'A' <= c <= 'H'
  }

  /** Rows per column half: 0..3 on the MCU board, 0..11 on the main board. */
  function RowCount(board: Board): nat {
    if board == MCU then 4 else 12
  }

  function BoardPrefix(board: Board): string {
    if board == MCU then "MCU" else "MAIN"
  }

  function BoardDevice(board: Board): Device {
    if board == MCU then McuBreadboard else MainBreadboard
  }

  predicate ValidPin(p: Pin) {
    IsColumn(p.column) && p.row < RowCount(p.board)
  }

  function PinName(p: Pin): string {
    BoardPrefix(p.board) + [p.column] + NatToString(p.row)
  }

  predicate IsMainRow(t: string) {
    || (|t| == 1 && IsDigit(t[0]))
    || (|t| == 2 && t[0] == '1' && (t[1] == '0' || t[1] == '1'))
  }

  /** The strings of the `Pin` type: `MCU` + column + row 0..3, or `MAIN` + column + row 0..11. */
  predicate IsPinName(s: string) {
    || (|s| == 5 && s[..3] == "MCU" && IsColumn(s[3]) && '0' <= s[4] <= '3')
    || (|s| >= 6 && s[..4] == "MAIN" && IsColumn(s[4]) && IsMainRow(s[5..]))
  }

  /** The pin a pin name denotes. */
  function PinOf(s: string): (p: Pin)
    requires IsPinName(s)
    ensures ValidPin(p) && PinName(p) == s
  {
    if s[..3] == "MCU" then
      assert s[1] == s[..3][1] == 'C';
      var r := DigitValue(s[4]);
      assert NatToString(r) == s[4..];
      Pin(MCU, s[3], r)
    else
      var t := s[5..];
      var r := if |t| == 1 then DigitValue(t[0]) else 10 + DigitValue(t[1]);
      assert NatToString(r) == t by {
        if |t| == 2 {
          assert NatToString(r) == NatToString(1) + [DigitChar(r % 10)];
        }
      }
      assert s == "MAIN" + [s[4]] + t;
      Pin(MAIN, s[4], r)
  }

  /** Every valid pin prints as a pin name, and the name gives the pin back. */
  lemma PinNameRoundTrip(p: Pin)
    requires ValidPin(p)
    ensures IsPinName(PinName(p)) && PinOf(PinName(p)) == p
  {
    var s, t := PinName(p), NatToString(p.row);
    if p.row >= 10 {
      assert t == NatToString(1) + [DigitChar(p.row % 10)];
    }
    if p.board == MCU {
      assert s[..3] == "MCU" && s[3] == p.column && s[4..] == t;
    } else {
      assert s[..4] == "MAIN" && s[4] == p.column && s[5..] == t;
      assert s[..3] != "MCU" by { assert s[1] == 'A'; }
    }
    var q := PinOf(s);
    assert q.board == p.board && q.column == p.column;
    NatToStringInjective(q.row, p.row);
  }

  /** The offset of the columns E-H, the second half of each breadboard row. */
  function HalfWidth(board: Board): nat {
    if board == MCU then 4 else 12
  }

  /**
   * `parsePin`: the breadboard and pin number of a pin name. Columns E-H sit
   * a half-width further along the board than columns A-D.
   */
  function ParsePin(pin: string): (r: (Device, int))
    requires IsPinName(pin)
    ensures IsContact(r.0, P, r.1)
  {
    var isMCU := pin[..3] == "MCU";
    var device := if isMCU then McuBreadboard else MainBreadboard;
    var prefixLength := if isMCU then 3 else 4;
    var column := pin[prefixLength];
    var row := ParseInt(pin[prefixLength + 1..]);
    assert row.Some? && row.value < (if isMCU then 4 else 12) by {
      var p := PinOf(pin);
      PinNameRoundTrip(p);
      assert pin[prefixLength + 1..] == NatToString(p.row) by {
        if !isMCU { assert pin[..4] == "MAIN"; }
      }
      ParseIntOfNatToString(p.row);
    }
    var pinNumber := if column >= 'E' then row.value + (if isMCU then 4 else 12) else row.value;
    (device, pinNumber)
  }

  /** A pin parses to its board and to its row, moved by the half-width for columns E-H. */
  lemma ParsePinOfPin(p: Pin)
    requires ValidPin(p)
    ensures IsPinName(PinName(p))
    ensures ParsePin(PinName(p)) == (BoardDevice(p.board), p.row + (if p.column >= 'E' then HalfWidth(p.board) else 0))
  {
    var s := PinName(p);
    PinNameRoundTrip(p);
    ParseIntOfNatToString(p.row);
    if p.board == MCU {
      assert s[..3] == "MCU" && s[3] == p.column && s[4..] == NatToString(p.row);
    } else {
      assert s[..3] != "MCU" by { assert s[1] == 'A'; }
      assert s[4] == p.column && s[5..] == NatToString(p.row);
    }
  }

  /**
   * Two pins parse to the same breadboard pin exactly when they are on the same
   * board, in the same row and in the same half (A-D or E-H): the four columns
   * of a half are interchangeable, and nothing else collides.
   */
  lemma ParsePinCollisions(p: Pin, q: Pin)
    requires ValidPin(p) && ValidPin(q)
    ensures IsPinName(PinName(p)) && IsPinName(PinName(q))
    ensures ParsePin(PinName(p)) == ParsePin(PinName(q))
        <==> p.board == q.board && p.row == q.row && (p.column >= 'E') == (q.column >= 'E')
  {
    ParsePinOfPin(p);
    ParsePinOfPin(q);
  }

  /** The vertex of a parsed pin is a breadboard vertex, labelled by its board and pin number. */
  lemma PinVertex(s: string)
    requires IsPinName(s)
    ensures var (device, n) := ParsePin(s);
            var v := GetGraphVertexID(device, P, n);
            48 <= v < VertexCount && IsBreadboardPin(v)
            && DeviceSpecification(v) == ContactLabel(device, P, n)
  {
    var (device, n) := ParsePin(s);
    VertexNumbering(device, P, n);
    DescribesContact(device, P, n);
  }
}
