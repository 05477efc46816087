/** The readers of MySQL text result sets: the row parser of the group-replication monitor and the
    early-exit lag reader of the health checker, proved against an encoder written from the MySQL
    Client/Server Protocol pages "MySQL Packets", "Protocol::LengthEncodedInteger" and "Text Resultset".

    The proxy reads with a cursor.  Each cursor method is proved against a function of the bytes from
    the cursor on, and the theorems are about those functions. */
module MysqlText {
  import opened Prelude

  newtype Byte = b: int | 0 <= b < 256

  /** A column value: `None` is SQL NULL. */
  type Cell = Option<seq<Byte>>
  type Row = seq<Cell>

  // ---------------------------------------------------------------- readers

  /** What a reader found and the bytes left after it. */
  datatype Took<+T> = Took(value: T, rest: seq<Byte>)

  function LittleEndian(b0: Byte, b1: Byte, b2: Byte): nat {
    b0 as nat + 0x100 * b1 as nat + 0x1_0000 * b2 as nat
  }

  /** A packet: three length bytes, one sequence byte, the payload. */
  function TakePacket(s: seq<Byte>): (r: Option<Took<seq<Byte>>>)
    ensures r.Some? ==> |r.value.rest| < |s|
  {
    if |s| < 4 then None
    else
      var len := LittleEndian(s[0], s[1], s[2]);
      if 4 + len > |s| then None else Some(Took(s[4..4 + len], s[4 + len..]))
  }

  function TakeInt(s: seq<Byte>): (r: Option<Took<nat>>)
    ensures r.Some? ==> |r.value.rest| < |s|
  {
    if s == [] then None
    else if s[0] <= 250 then Some(Took(s[0] as nat, s[1..]))
    else if s[0] == 0xFC then
      if |s| < 3 then None else Some(Took(LittleEndian(s[1], s[2], 0), s[3..]))
    else if s[0] == 0xFD then
      if |s| < 4 then None else Some(Took(LittleEndian(s[1], s[2], s[3]), s[4..]))
    else None
  }

  function TakeCell(s: seq<Byte>): (r: Option<Took<Cell>>)
    ensures r.Some? ==> |r.value.rest| < |s|
  {
    if s == [] then None
    else if s[0] == 0xFB then Some(Took(None, s[1..]))
    else
      var n :- TakeInt(s);
      if n.value > |n.rest| then None else Some(Took(Some(n.rest[..n.value]), n.rest[n.value..]))
  }

  /** `next_packet` */
  method NextPacket(bytes: seq<Byte>, pos: nat) returns (payload: Option<seq<Byte>>, next: nat)
    requires pos <= |bytes|
    ensures next <= |bytes|
    ensures payload.None? <==> TakePacket(bytes[pos..]).None?
    ensures payload.Some? ==> pos < next && TakePacket(bytes[pos..]) == Some(Took(payload.value, bytes[next..]))
  {
    if pos + 4 > |bytes| { return None, pos; }
    var len := LittleEndian(bytes[pos], bytes[pos + 1], bytes[pos + 2]);
    next := pos + 4;
    if next + len > |bytes| { return None, next; }
    assert bytes[pos..][4..4 + len] == bytes[next..next + len] && bytes[pos..][4 + len..] == bytes[next + len..];
    payload := Some(bytes[next..next + len]);
    next := next + len;
  }

  /** `read_lenenc_int` */
  method ReadInt(bytes: seq<Byte>, pos: nat) returns (n: Option<nat>, next: nat)
    requires pos <= |bytes|
    ensures n.None? <==> TakeInt(bytes[pos..]).None?
    ensures n.Some? ==> next <= |bytes| && TakeInt(bytes[pos..]) == Some(Took(n.value, bytes[next..]))
  {
    if pos >= |bytes| { return None, pos; }
    var b := bytes[pos];
    next := pos + 1;
    if b <= 250 {
      n := Some(b as nat);
    } else if b == 0xFC {
      if next + 2 > |bytes| { return None, next; }
      n := Some(LittleEndian(bytes[next], bytes[next + 1], 0));
      next := next + 2;
    } else if b == 0xFD {
      if next + 3 > |bytes| { return None, next; }
      n := Some(LittleEndian(bytes[next], bytes[next + 1], bytes[next + 2]));
      next := next + 3;
    } else {
      n := None;
    }
  }

  /** `read_lenenc_str` */
  method ReadCell(bytes: seq<Byte>, pos: nat) returns (cell: Option<Cell>, next: nat)
    requires pos <= |bytes|
    ensures cell.None? <==> TakeCell(bytes[pos..]).None?
    ensures cell.Some? ==> next <= |bytes| && TakeCell(bytes[pos..]) == Some(Took(cell.value, bytes[next..]))
  {
    if pos >= |bytes| { return None, pos; }
    if bytes[pos] == 0xFB { return Some(None), pos + 1; }
    var n;
    n, next := ReadInt(bytes, pos);
    if n.None? || next + n.value > |bytes| { return None, next; }
    assert bytes[next..][..n.value] == bytes[next..next + n.value];
    assert bytes[next..][n.value..] == bytes[next + n.value..];
    cell := Some(Some(bytes[next..next + n.value]));
    next := next + n.value;
  }

  // ---------------------------------------------------------------- the row parser

  /** The bytes left after `n` packets. */
  function SkipPackets(s: seq<Byte>, n: nat): Option<seq<Byte>>
    decreases n
  {
    if n == 0 then Some(s)
    else
      var p :- TakePacket(s);
      SkipPackets(p.rest, n - 1)
  }

  function Cells(s: seq<Byte>, n: nat): (r: Option<Row>)
    ensures r.Some? ==> |r.value| == n
    decreases n
  {
    if n == 0 then Some([])
    else
      var c :- TakeCell(s);
      var rest :- Cells(c.rest, n - 1);
      Some([c.value] + rest)
  }

  /** EOF (0xFE) or ERR (0xFF) closes the rows. */
  predicate ClosesRows(pkt: seq<Byte>) { pkt != [] && (pkt[0] == 0xFE || pkt[0] == 0xFF) }

  function Rows(s: seq<Byte>, cols: nat): Option<seq<Row>>
    decreases |s|
  {
    var p :- TakePacket(s);
    if ClosesRows(p.value) then Some([])
    else
      var row :- Cells(p.value, cols);
      var rest :- Rows(p.rest, cols);
      Some([row] + rest)
  }

  /** The number of columns, announced by the first packet. */
  function ColumnCount(s: seq<Byte>): Option<Took<nat>> {
    var p :- TakePacket(s);
    var n :- TakeInt(p.value);
    Some(Took(n.value, p.rest))
  }

  /** The rows of a response whose column definitions start at `s`. */
  function RowsAfterDefs(s: seq<Byte>, cols: nat): Option<seq<Row>> {
    var afterDefs :- SkipPackets(s, cols);
    var eof :- TakePacket(afterDefs);
    Rows(eof.rest, cols)
  }

  function TextRows(bytes: seq<Byte>): Option<seq<Row>> {
    var n :- ColumnCount(bytes);
    if n.value == 0 then Some([]) else RowsAfterDefs(n.rest, n.value)
  }

  method ReadColumnCount(bytes: seq<Byte>) returns (n: Option<nat>, next: nat)
    ensures n.None? <==> ColumnCount(bytes).None?
    ensures n.Some? ==> next <= |bytes| && ColumnCount(bytes) == Some(Took(n.value, bytes[next..]))
  {
    assert bytes[0..] == bytes;
    var pkt;
    pkt, next := NextPacket(bytes, 0);
    if pkt.None? { return None, next; }
    assert pkt.value[0..] == pkt.value;
    var cp;
    n, cp := ReadInt(pkt.value, 0);
  }

  /** `parse_text_rows`: a cursor moving over the packets of the response. */
  method ParseTextRows(bytes: seq<Byte>) returns (result: Option<seq<Row>>)
    ensures result == TextRows(bytes)
  {
    hide TakePacket, ColumnCount;
    var cols: Option<nat>, pos: nat := ReadColumnCount(bytes);
    if cols.None? { return None; }
    if cols.value == 0 { return Some([]); }
    ghost var defs := bytes[pos..];
    for i := 0 to cols.value
      invariant pos <= |bytes|
      invariant SkipPackets(defs, cols.value) == SkipPackets(bytes[pos..], cols.value - i)
    {
      var p;
      p, pos := NextPacket(bytes, pos);
      if p.None? { return None; }
    }
    var eof;
    eof, pos := NextPacket(bytes, pos);
    if eof.None? { return None; }
    result := ParseRows(bytes, pos, cols.value);
  }

  method ParseRows(bytes: seq<Byte>, start: nat, cols: nat) returns (result: Option<seq<Row>>)
    requires start <= |bytes|
    ensures result == Rows(bytes[start..], cols)
  {
    hide TakePacket, Cells;
    var rows: seq<Row> := [];
    var pos := start;
    PrependNothing(Rows(bytes[start..], cols));
    while true
      invariant pos <= |bytes|
      invariant Rows(bytes[start..], cols) == Prepend(rows, Rows(bytes[pos..], cols))
      decreases |bytes| - pos
    {
      var p;
      p, pos := NextPacket(bytes, pos);
      if p.None? { return None; }
      if ClosesRows(p.value) { break; }
      var row := ParseRow(p.value, cols);
      if row.None? { return None; }
      PrependMore(rows, row.value, Rows(bytes[pos..], cols));
      rows := rows + [row.value];
    }
    assert rows + [] == rows;
    return Some(rows);
  }

  lemma {:induction false} PrependNothing<T>(rest: Option<seq<T>>)
    ensures Prepend([], rest) == rest
  {
    if rest.Some? { assert [] + rest.value == rest.value; }
  }

  function Prepend<T>(front: seq<T>, rest: Option<seq<T>>): Option<seq<T>> {
    if rest.None? then None else Some(front + rest.value)
  }

  lemma {:induction false} PrependMore<T>(front: seq<T>, x: T, rest: Option<seq<T>>)
    ensures Prepend(front, Prepend([x], rest)) == Prepend(front + [x], rest)
  {
    if rest.Some? { assert front + ([x] + rest.value) == front + [x] + rest.value; }
  }

  method ParseRow(pkt: seq<Byte>, cols: nat) returns (row: Option<Row>)
    ensures row == Cells(pkt, cols)
  {
    var cells: Row := [];
    var pos: nat := 0;
    assert pkt[0..] == pkt;
    PrependNothing(Cells(pkt, cols));
    for i := 0 to cols
      invariant pos <= |pkt|
      invariant Cells(pkt, cols) == Prepend(cells, Cells(pkt[pos..], cols - i))
    {
      var c, next := ReadCell(pkt, pos);
      if c.None? { return None; }
      pos := next;
      PrependMore(cells, c.value, Cells(pkt[pos..], cols - i - 1));
      cells := cells + [c.value];
    }
    assert cells + [] == cells;
    return Some(cells);
  }

  // ---------------------------------------------------------------- the lag reader

  /** The bytes left after `n` length-encoded strings. */
  function SkipStrings(s: seq<Byte>, n: nat): Option<seq<Byte>>
    decreases n
  {
    if n == 0 then Some(s)
    else
      var c :- TakeCell(s);
      SkipStrings(c.rest, n - 1)
  }

  /** The fifth string of a column definition, after catalog, schema, table and org_table. */
  function ColumnName(payload: seq<Byte>): Option<seq<Byte>> {
    var s :- SkipStrings(payload, 4);
    var name :- TakeCell(s);
    name.value
  }

  /** `col_def_name`: a skipped string that runs past the payload is noticed at the next read. */
  method ColDefName(payload: seq<Byte>) returns (name: Option<seq<Byte>>)
    ensures name == ColumnName(payload)
  {
    hide TakeCell, TakeInt;
    var pos: nat := 0;
    assert payload[0..] == payload;
    for i := 0 to 4
      invariant SkipStrings(payload, 4) == if pos <= |payload| then SkipStrings(payload[pos..], 4 - i) else None
    {
      if pos >= |payload| {
        assert pos == |payload| ==> TakeCell(payload[pos..]).None? by { NothingToTake(payload); }
        return None;
      }
      var next := SkipString(payload, pos);
      if next.None? { return None; }
      pos := next.value;
    }
    if pos > |payload| { return None; }
    name := ReadName(payload, pos);
  }

  lemma {:induction false} NothingToTake(payload: seq<Byte>)
    ensures TakeCell(payload[|payload|..]).None?
  {
  }

  /** Skips one string: `None` when its length cannot be read. */
  method SkipString(payload: seq<Byte>, pos: nat) returns (next: Option<nat>)
    requires pos < |payload|
    ensures next.None? ==> TakeCell(payload[pos..]).None?
    ensures next.Some? && next.value > |payload| ==> TakeCell(payload[pos..]).None?
    ensures next.Some? && next.value <= |payload| ==>
              TakeCell(payload[pos..]).Some? && TakeCell(payload[pos..]).value.rest == payload[next.value..]
  {
    hide TakeInt;
    if payload[pos] == 0xFB { return Some(pos + 1); }
    var len, after := ReadInt(payload, pos);
    if len.None? { return None; }
    assert after + len.value <= |payload| ==> payload[after..][len.value..] == payload[after + len.value..];
    return Some(after + len.value);
  }

  method ReadName(payload: seq<Byte>, pos: nat) returns (name: Option<seq<Byte>>)
    requires pos <= |payload|
    ensures name == (var c := TakeCell(payload[pos..]); if c.None? then None else c.value.value)
  {
    hide TakeInt;
    if pos == |payload| || payload[pos] == 0xFB { return None; }
    var len, np := ReadInt(payload, pos);
    if len.None? || np + len.value > |payload| { return None; }
    assert payload[np..][..len.value] == payload[np..np + len.value];
    return Some(payload[np..np + len.value]);
  }

  function Ascii(s: string): (bytes: seq<Byte>)
    requires forall c :: c in s ==> c as int < 256
    ensures |bytes| == |s| && forall i :: 0 <= i < |s| ==> bytes[i] as int == s[i] as int
  {
    seq(|s|, i requires 0 <= i < |s| => assert s[i] in s; s[i] as int as Byte)
  }

  predicate IsLagName(name: Option<seq<Byte>>) {
    name == Some(Ascii("Seconds_Behind_Source")) || name == Some(Ascii("Seconds_Behind_Master"))
  }

  predicate IsDigit(b: Byte) { 48 <= b <= 57 }

  predicate AllDigits(s: seq<Byte>) { forall i :: 0 <= i < |s| ==> IsDigit(s[i]) }

  function DigitsValue(s: seq<Byte>): nat
    requires AllDigits(s)
  {
    if s == [] then 0 else 10 * DigitsValue(s[..|s| - 1]) + (s[|s| - 1] as int - 48)
  }

  /** `str::parse::<u64>`: an optional plus sign and at least one digit, below 2^64. */
  function ParseU64(s: seq<Byte>): Option<nat> {
    var digits := if s != [] && s[0] == 43 then s[1..] else s;
    if digits == [] || !AllDigits(digits) || DigitsValue(digits) >= U64 then None
    else Some(DigitsValue(digits))
  }

  /** The lag a cell reports: 0 for NULL, else 1000 times its seconds in 64-bit arithmetic. */
  function LagOfCell(cell: Cell): Option<nat> {
    match cell
    case None => Some(0)
    case Some(v) =>
      var secs :- ParseU64(v);
      Some(secs * 1000 % U64)
  }

  /** The last of the next `n` columns whose definition carries a lag name; `i` numbers the first. */
  function FindTarget(s: seq<Byte>, i: nat, n: nat, found: Option<nat>): Option<Took<Option<nat>>>
    decreases n
  {
    if n == 0 then Some(Took(found, s))
    else
      var p :- TakePacket(s);
      FindTarget(p.rest, i + 1, n - 1, if IsLagName(ColumnName(p.value)) then Some(i) else found)
  }

  /** The cell with number `n`, reading no further. */
  function CellAt(s: seq<Byte>, n: nat): Option<Cell>
    decreases n
  {
    var c :- TakeCell(s);
    if n == 0 then Some(c.value) else CellAt(c.rest, n - 1)
  }

  /** The lag a row packet reports in the target column. */
  function LagOfPacket(pkt: seq<Byte>, target: Option<nat>): Option<nat> {
    if pkt != [] && pkt[0] == 0xFE then None
    else
      var t :- target;
      var cell :- CellAt(pkt, t);
      LagOfCell(cell)
  }

  function Lag(bytes: seq<Byte>): Option<nat> {
    var n :- ColumnCount(bytes);
    if n.value == 0 then None
    else
      var target :- FindTarget(n.rest, 0, n.value, None);
      var eof :- TakePacket(target.rest);
      var row :- TakePacket(eof.rest);
      LagOfPacket(row.value, target.value)
  }

  /** `parse_lag_bytes`: reads the column definitions and then only the first row, up to the target. */
  method ParseLagBytes(bytes: seq<Byte>) returns (lag: Option<nat>)
    ensures lag == Lag(bytes)
  {
    hide TakePacket, ColumnCount, IsLagName, ColumnName, LagOfPacket;
    var cols: Option<nat>, pos: nat := ReadColumnCount(bytes);
    if cols.None? || cols.value == 0 { return None; }
    var target: Option<nat> := None;
    ghost var defs := bytes[pos..];
    for i := 0 to cols.value
      invariant pos <= |bytes|
      invariant FindTarget(defs, 0, cols.value, None) == FindTarget(bytes[pos..], i, cols.value - i, target)
    {
      var p;
      p, pos := NextPacket(bytes, pos);
      if p.None? { return None; }
      var name := ColDefName(p.value);
      if IsLagName(name) { target := Some(i); }
    }
    var eof, row;
    eof, pos := NextPacket(bytes, pos);
    if eof.None? { return None; }
    row, pos := NextPacket(bytes, pos);
    if row.None? { return None; }
    lag := ParseLagRow(row.value, target);
  }

  method ParseLagRow(pkt: seq<Byte>, target: Option<nat>) returns (lag: Option<nat>)
    ensures lag == LagOfPacket(pkt, target)
  {
    if pkt != [] && pkt[0] == 0xFE { return None; }
    if target.None? { return None; }
    var rp: nat := 0;
    assert pkt[0..] == pkt;
    for i := 0 to target.value
      invariant rp <= |pkt|
      invariant CellAt(pkt, target.value) == CellAt(pkt[rp..], target.value - i)
    {
      var c, next := ReadCell(pkt, rp);
      if c.None? { return None; }
      rp := next;
    }
    var c, next := ReadCell(pkt, rp);
    return if c.None? then None else LagOfCell(c.value);
  }

  // ---------------------------------------------------------------- encoder

  function Low(n: nat): Byte { (n % 0x100) as Byte }

  function Mid(n: nat): Byte { (n / 0x100 % 0x100) as Byte }

  function High(n: nat): Byte { (n / 0x1_0000 % 0x100) as Byte }

  lemma {:induction false} LittleEndianInverts(n: nat)
    requires n < 0x100_0000
    ensures LittleEndian(Low(n), Mid(n), High(n)) == n
  {
  }

  lemma TwoBytes(n: nat)
    requires n < 0x1_0000
    ensures LittleEndian(Low(n), Mid(n), 0) == n
  {
    assert High(n) == 0;
    LittleEndianInverts(n);
  }

  const LIMIT: nat := 0x100_0000

  function EncodeInt(n: nat): (e: seq<Byte>)
    requires n < LIMIT
    ensures e != []
  {
    if n <= 250 then [n as Byte]
    else if n < 0x1_0000 then [0xFC, Low(n), Mid(n)]
    else [0xFD, Low(n), Mid(n), High(n)]
  }

  predicate Encodable(cell: Cell) { cell.Some? ==> |cell.value| < LIMIT }

  function EncodeCell(cell: Cell): (e: seq<Byte>)
    requires Encodable(cell)
    ensures e != []
  {
    match cell
    case None => [0xFB]
    case Some(v) => EncodeInt(|v|) + v
  }

  predicate EncodableRow(row: Row) { forall i :: 0 <= i < |row| ==> Encodable(row[i]) }

  function EncodeRow(row: Row): seq<Byte>
    requires EncodableRow(row)
  {
    if row == [] then [] else EncodeCell(row[0]) + EncodeRow(row[1..])
  }

  /** A packet: a payload, framed with its length and a sequence number. */
  datatype Packet = Packet(payload: seq<Byte>, number: Byte) {
    predicate Fits() { |payload| < LIMIT }
  }

  function EncodePacket(p: Packet): (e: seq<Byte>)
    requires p.Fits()
  {
    [Low(|p.payload|), Mid(|p.payload|), High(|p.payload|), p.number] + p.payload
  }

  predicate AllFit(ps: seq<Packet>) { forall i :: 0 <= i < |ps| ==> ps[i].Fits() }

  /** The packets of `ps`, one after the other, followed by `more`. */
  function EncodePackets(ps: seq<Packet>, more: seq<Byte>): seq<Byte>
    requires AllFit(ps)
  {
    if ps == [] then more else EncodePacket(ps[0]) + EncodePackets(ps[1..], more)
  }

  /** A row and the sequence number of its packet. */
  datatype NumberedRow = NumberedRow(cells: Row, number: Byte) {
    predicate Fits(cols: nat) { |cells| == cols && EncodableRow(cells) && |EncodeRow(cells)| < LIMIT }
  }

  /** The row packets, the closing packet and whatever follows it. */
  function EncodeRows(rows: seq<NumberedRow>, cols: nat, close: Packet, more: seq<Byte>): seq<Byte>
    requires forall i :: 0 <= i < |rows| ==> rows[i].Fits(cols)
    requires close.Fits()
  {
    if rows == [] then EncodePacket(close) + more
    else
      assert rows[0].Fits(cols);
      EncodePacket(Packet(EncodeRow(rows[0].cells), rows[0].number)) + EncodeRows(rows[1..], cols, close, more)
  }

  /** A text result set: one definition per column, then the rows.  The sequence numbers, the EOF
      packet's payload and the bytes after the closing packet are free. */
  datatype ResultSet = ResultSet(
    countNumber: Byte, defs: seq<Packet>, eof: Packet, rows: seq<NumberedRow>, close: Packet, more: seq<Byte>)
  {
    predicate WellFormed() {
      && 1 <= |defs| < LIMIT && AllFit(defs) && eof.Fits()
      && close.Fits() && close.payload != [] && (close.payload[0] == 0xFE || close.payload[0] == 0xFF)
      && forall i :: 0 <= i < |rows| ==> rows[i].Fits(|defs|)
    }

    function AfterDefs(): seq<Byte>
      requires WellFormed()
    {
      EncodePacket(eof) + EncodeRows(rows, |defs|, close, more)
    }

    function Encode(): seq<Byte>
      requires WellFormed()
    {
      EncodePacket(Packet(EncodeInt(|defs|), countNumber)) + EncodePackets(defs, AfterDefs())
    }

    function Cells(): seq<Row> { CellsOf(rows) }
  }

  function CellsOf(rows: seq<NumberedRow>): seq<Row> {
    if rows == [] then [] else [rows[0].cells] + CellsOf(rows[1..])
  }

  // ---------------------------------------------------------------- round trip

  lemma {:induction false} TakesPacket(p: Packet, rest: seq<Byte>)
    requires p.Fits()
    ensures TakePacket(EncodePacket(p) + rest) == Some(Took(p.payload, rest))
  {
    var n := |p.payload|;
    LittleEndianInverts(n);
    var s := EncodePacket(p) + rest;
    assert s[0] == Low(n) && s[1] == Mid(n) && s[2] == High(n);
    assert s[4..4 + n] == p.payload && s[4 + n..] == rest;
  }

  /** The integer reader inverts the encoder, and the first byte marks neither NULL, EOF nor ERR. */
  lemma {:induction false} TakesInt(n: nat, rest: seq<Byte>)
    requires n < LIMIT
    ensures TakeInt(EncodeInt(n) + rest) == Some(Took(n, rest))
    ensures EncodeInt(n)[0] != 0xFB && EncodeInt(n)[0] < 0xFE
  {
    LittleEndianInverts(n);
    hide LittleEndian, Low, Mid, High;
    var e := EncodeInt(n);
    var s := e + rest;
    assert s[0] == e[0] && s[|e|..] == rest;
    if n > 250 {
      assert s[1] == Low(n) && s[2] == Mid(n);
      if n < 0x1_0000 {
        assert LittleEndian(Low(n), Mid(n), 0) == n by { TwoBytes(n); }
      } else {
        assert s[3] == High(n);
      }
    }
  }

  /** The packet reader reads exactly the framing. */
  lemma {:induction false} TakesPacketIff(s: seq<Byte>, payload: seq<Byte>, rest: seq<Byte>)
    ensures TakePacket(s) == Some(Took(payload, rest)) <==>
            exists number: Byte :: |payload| < LIMIT && s == EncodePacket(Packet(payload, number)) + rest
  {
    hide TakePacket, EncodePacket;
    if TakePacket(s) == Some(Took(payload, rest)) {
      ReadsPacket(s);
    }
    if number: Byte :| |payload| < LIMIT && s == EncodePacket(Packet(payload, number)) + rest {
      TakesPacket(Packet(payload, number), rest);
    }
  }

  lemma {:induction false} ReadsPacket(s: seq<Byte>)
    requires TakePacket(s).Some?
    ensures var p := TakePacket(s).value;
            |s| >= 4 && |p.value| < LIMIT && s == EncodePacket(Packet(p.value, s[3])) + p.rest
  {
    var n := LittleEndian(s[0], s[1], s[2]);
    BytesOf(s[0], s[1], s[2]);
    hide LittleEndian, Low, Mid, High;
    assert [s[0], s[1], s[2], s[3]] + s[4..4 + n] + s[4 + n..] == s;
  }

  lemma {:induction false} BytesOf(b0: Byte, b1: Byte, b2: Byte)
    ensures var n := LittleEndian(b0, b1, b2); n < LIMIT && Low(n) == b0 && Mid(n) == b1 && High(n) == b2
  {
  }

  /** The integer reader reads exactly the three forms, also where a shorter one would do. */
  lemma {:induction false} TakesIntIff(s: seq<Byte>, n: nat, rest: seq<Byte>)
    ensures TakeInt(s) == Some(Took(n, rest)) <==>
            || (n <= 250 && s == [n as Byte] + rest)
            || (n < 0x1_0000 && s == [0xFC, Low(n), Mid(n)] + rest)
            || (n < LIMIT && s == [0xFD, Low(n), Mid(n), High(n)] + rest)
  {
    if TakeInt(s) == Some(Took(n, rest)) {
      ReadsForm(s);
    } else {
      if n < LIMIT { LittleEndianInverts(n); }
      if n < 0x1_0000 { TwoBytes(n); }
      hide LittleEndian, Low, Mid, High;
      assert ([0xFC, Low(n), Mid(n)] + rest)[3..] == rest;
      assert ([0xFD, Low(n), Mid(n), High(n)] + rest)[4..] == rest;
      assert n <= 250 ==> ([n as Byte] + rest)[1..] == rest;
    }
  }

  lemma {:induction false} ReadsForm(s: seq<Byte>)
    requires TakeInt(s).Some?
    ensures var n, rest := TakeInt(s).value.value, TakeInt(s).value.rest;
            || (n <= 250 && s == [n as Byte] + rest)
            || (n < 0x1_0000 && s == [0xFC, Low(n), Mid(n)] + rest)
            || (n < LIMIT && s == [0xFD, Low(n), Mid(n), High(n)] + rest)
  {
    if s[0] == 0xFC {
      BytesOf(s[1], s[2], 0);
      assert s == [s[0], s[1], s[2]] + s[3..];
    } else if s[0] == 0xFD {
      BytesOf(s[1], s[2], s[3]);
      assert s == [s[0], s[1], s[2], s[3]] + s[4..];
    }
    hide LittleEndian, Low, Mid, High;
  }

  /** The string reader reads exactly the NULL marker, or a length in one of those forms and that many
      bytes. */
  lemma {:induction false} TakesCellIff(s: seq<Byte>, cell: Cell, rest: seq<Byte>)
    ensures TakeCell(s) == Some(Took(cell, rest)) <==>
            if cell.None? then s == [0xFB] + rest
            else TakeInt(s) == Some(Took(|cell.value|, cell.value + rest))
  {
    if cell.Some? {
      var v := cell.value;
      assert (v + rest)[..|v|] == v && (v + rest)[|v|..] == rest;
      if TakeInt(s).Some? {
        var n := TakeInt(s).value;
        assert n.value <= |n.rest| ==> n.rest[..n.value] + n.rest[n.value..] == n.rest;
      }
    } else if s != [] {
      assert s == [s[0]] + s[1..];
      assert ([0xFB] + rest)[1..] == rest;
    }
  }

  lemma {:induction false} TakesCell(cell: Cell, rest: seq<Byte>)
    requires Encodable(cell)
    ensures TakeCell(EncodeCell(cell) + rest) == Some(Took(cell, rest))
    ensures EncodeCell(cell)[0] < 0xFE
  {
    if cell.Some? {
      TakesValue(cell.value, rest);
    } else {
      assert ([0xFB] + rest)[1..] == rest;
    }
  }

  lemma {:induction false} TakesValue(v: seq<Byte>, rest: seq<Byte>)
    requires |v| < LIMIT
    ensures TakeCell(EncodeInt(|v|) + v + rest) == Some(Took(Some(v), rest))
    ensures EncodeInt(|v|)[0] < 0xFE
  {
    hide TakeInt, EncodeInt;
    var e := EncodeInt(|v|);
    TakesInt(|v|, v + rest);
    assert e + v + rest == e + (v + rest);
    assert (v + rest)[..|v|] == v && (v + rest)[|v|..] == rest;
  }

  lemma {:induction false} TakesCells(row: Row)
    requires EncodableRow(row)
    ensures Cells(EncodeRow(row), |row|) == Some(row)
    decreases row
  {
    if row != [] {
      TakesCell(row[0], EncodeRow(row[1..]));
      TakesCells(row[1..]);
      assert [row[0]] + row[1..] == row;
    }
  }

  /** A row packet is never mistaken for EOF or ERR. */
  lemma {:induction false} RowPacketIsNoMarker(row: Row)
    requires row != [] && EncodableRow(row)
    ensures EncodeRow(row) != [] && EncodeRow(row)[0] < 0xFE
  {
    TakesCell(row[0], EncodeRow(row[1..]));
    assert EncodeRow(row)[0] == EncodeCell(row[0])[0];
  }

  lemma {:induction false} TakesRows(rows: seq<NumberedRow>, cols: nat, close: Packet, more: seq<Byte>)
    requires cols > 0 && forall i :: 0 <= i < |rows| ==> rows[i].Fits(cols)
    requires close.Fits() && close.payload != [] && (close.payload[0] == 0xFE || close.payload[0] == 0xFF)
    ensures Rows(EncodeRows(rows, cols, close, more), cols) == Some(CellsOf(rows))
    decreases rows
  {
    if rows == [] {
      TakesPacket(close, more);
    } else {
      var row := rows[0].cells;
      TakesPacket(Packet(EncodeRow(row), rows[0].number), EncodeRows(rows[1..], cols, close, more));
      RowPacketIsNoMarker(row);
      TakesCells(row);
      TakesRows(rows[1..], cols, close, more);
    }
  }

  lemma {:induction false} SkipsPackets(ps: seq<Packet>, more: seq<Byte>)
    requires AllFit(ps)
    ensures SkipPackets(EncodePackets(ps, more), |ps|) == Some(more)
    decreases ps
  {
    if ps != [] {
      TakesPacket(ps[0], EncodePackets(ps[1..], more));
      SkipsPackets(ps[1..], more);
    }
  }

  lemma {:induction false} TakesColumnCount(t: ResultSet)
    requires t.WellFormed()
    ensures ColumnCount(t.Encode()) == Some(Took(|t.defs|, EncodePackets(t.defs, t.AfterDefs())))
  {
    var e := EncodeInt(|t.defs|);
    TakesPacket(Packet(e, t.countNumber), EncodePackets(t.defs, t.AfterDefs()));
    TakesInt(|t.defs|, []);
    assert e + [] == e;
  }

  /** Parsing an encoded result set gives back exactly its rows, whatever follows it. */
  lemma {:induction false} RoundTrip(t: ResultSet)
    requires t.WellFormed()
    ensures TextRows(t.Encode()) == Some(t.Cells())
  {
    TakesColumnCount(t);
    RowsAfterDefsRead(t);
  }

  lemma {:induction false} RowsAfterDefsRead(t: ResultSet)
    requires t.WellFormed()
    ensures RowsAfterDefs(EncodePackets(t.defs, t.AfterDefs()), |t.defs|) == Some(t.Cells())
  {
    SkipsPackets(t.defs, t.AfterDefs());
    TakesPacket(t.eof, EncodeRows(t.rows, |t.defs|, t.close, t.more));
    TakesRows(t.rows, |t.defs|, t.close, t.more);
  }

  /** A response that announces no columns has no rows and no lag, whatever follows. */
  lemma {:induction false} NoColumns(number: Byte, more: seq<Byte>)
    ensures TextRows(EncodePacket(Packet([0], number)) + more) == Some([])
    ensures Lag(EncodePacket(Packet([0], number)) + more) == None
  {
    TakesPacket(Packet([0], number), more);
    hide TakePacket, EncodePacket;
  }

  // ---------------------------------------------------------------- truncation

  lemma {:induction false} CutConcat(a: seq<Byte>, b: seq<Byte>, n: nat)
    requires n <= |a| + |b|
    ensures (a + b)[..n] == if n < |a| then a[..n] else a + b[..n - |a|]
  {
  }

  /** A packet cut short is not read. */
  lemma {:induction false} TakesCut(p: Packet, rest: seq<Byte>, n: nat)
    requires p.Fits() && n <= |EncodePacket(p)| + |rest|
    ensures TakePacket((EncodePacket(p) + rest)[..n]) ==
            if n < |EncodePacket(p)| then None else Some(Took(p.payload, rest[..n - |EncodePacket(p)|]))
  {
    var e := EncodePacket(p);
    CutConcat(e, rest, n);
    if n < |e| {
      LittleEndianInverts(|p.payload|);
      assert n >= 4 ==> e[..n][0] == e[0] && e[..n][1] == e[1] && e[..n][2] == e[2];
      hide LittleEndian, Low, Mid, High;
    } else {
      hide TakePacket, EncodePacket;
      TakesPacket(p, rest[..n - |e|]);
    }
  }

  lemma {:induction false} SkipsCut(ps: seq<Packet>, more: seq<Byte>, n: nat)
    requires AllFit(ps) && n <= |EncodePackets(ps, more)|
    ensures |more| <= |EncodePackets(ps, more)|
    ensures var front := |EncodePackets(ps, more)| - |more|;
            SkipPackets(EncodePackets(ps, more)[..n], |ps|) == if n < front then None else Some(more[..n - front])
    decreases ps
  {
    hide TakePacket, EncodePacket;
    if ps != [] {
      var rest := EncodePackets(ps[1..], more);
      TakesCut(ps[0], rest, n);
      SkipsCut(ps[1..], more, Max(0, n - |EncodePacket(ps[0])|));
    }
  }

  lemma {:induction false} RowsCut(rows: seq<NumberedRow>, cols: nat, close: Packet, more: seq<Byte>, n: nat)
    requires cols > 0 && forall i :: 0 <= i < |rows| ==> rows[i].Fits(cols)
    requires close.Fits() && close.payload != [] && (close.payload[0] == 0xFE || close.payload[0] == 0xFF)
    requires n <= |EncodeRows(rows, cols, close, more)|
    ensures |more| <= |EncodeRows(rows, cols, close, more)|
    ensures Rows(EncodeRows(rows, cols, close, more)[..n], cols).Some? <==>
            n >= |EncodeRows(rows, cols, close, more)| - |more|
    decreases rows
  {
    hide TakePacket, EncodePacket, Cells, EncodeRow;
    if rows == [] {
      TakesCut(close, more, n);
    } else {
      var row := rows[0].cells;
      var p := Packet(EncodeRow(row), rows[0].number);
      TakesCut(p, EncodeRows(rows[1..], cols, close, more), n);
      RowPacketIsNoMarker(row);
      TakesCells(row);
      RowsCut(rows[1..], cols, close, more, Max(0, n - |EncodePacket(p)|));
    }
  }

  lemma {:induction false} AfterDefsCut(t: ResultSet, n: nat)
    requires t.WellFormed() && n <= |t.AfterDefs()|
    ensures |t.more| <= |t.AfterDefs()|
    ensures var eof := TakePacket(t.AfterDefs()[..n]);
            (eof.Some? && Rows(eof.value.rest, |t.defs|).Some?) <==> n >= |t.AfterDefs()| - |t.more|
  {
    hide TakePacket, EncodePacket, Rows, EncodeRows;
    var rest := EncodeRows(t.rows, |t.defs|, t.close, t.more);
    TakesCut(t.eof, rest, n);
    RowsCut(t.rows, |t.defs|, t.close, t.more, Max(0, n - |EncodePacket(t.eof)|));
  }

  lemma {:induction false} CountCut(t: ResultSet, n: nat)
    requires t.WellFormed() && n <= |t.Encode()|
    ensures var defs := EncodePackets(t.defs, t.AfterDefs());
            var front := |t.Encode()| - |defs|;
            0 <= front && ColumnCount(t.Encode()[..n]) ==
              if n < front then None else Some(Took(|t.defs|, defs[..n - front]))
  {
    var e := EncodeInt(|t.defs|);
    assert |e| <= 4;
    TakesInt(|t.defs|, []);
    assert e + [] == e;
    hide TakePacket, EncodePacket, TakeInt, EncodeInt, EncodePackets;
    TakesCut(Packet(e, t.countNumber), EncodePackets(t.defs, t.AfterDefs()), n);
  }

  lemma {:induction false} DefsCut(t: ResultSet, m: nat)
    requires t.WellFormed() && m <= |EncodePackets(t.defs, t.AfterDefs())|
    ensures |t.more| <= |EncodePackets(t.defs, t.AfterDefs())|
    ensures RowsAfterDefs(EncodePackets(t.defs, t.AfterDefs())[..m], |t.defs|).Some? <==>
            m >= |EncodePackets(t.defs, t.AfterDefs())| - |t.more|
  {
    hide TakePacket, EncodePackets, SkipPackets, Rows, t.AfterDefs;
    SkipsCut(t.defs, t.AfterDefs(), m);
    var front := |EncodePackets(t.defs, t.AfterDefs())| - |t.AfterDefs()|;
    AfterDefsCut(t, Max(0, m - front));
  }

  /** A response cut short anywhere before the end of its closing packet is rejected. */
  lemma {:induction false} ParsesIffComplete(t: ResultSet, n: nat)
    requires t.WellFormed() && n <= |t.Encode()|
    ensures |t.more| <= |t.Encode()|
    ensures TextRows(t.Encode()[..n]).Some? <==> n >= |t.Encode()| - |t.more|
  {
    hide ColumnCount, RowsAfterDefs, EncodePackets, t.Encode, t.AfterDefs;
    CountCut(t, n);
    var front := |t.Encode()| - |EncodePackets(t.defs, t.AfterDefs())|;
    DefsCut(t, Max(0, n - front));
  }

  /** Result sets with the same bytes have the same rows. */
  lemma {:induction false} EncodingInjective(t: ResultSet, t': ResultSet)
    requires t.WellFormed() && t'.WellFormed() && t.Encode() == t'.Encode()
    ensures t.Cells() == t'.Cells()
  {
    RoundTrip(t);
    RoundTrip(t');
  }

  // ---------------------------------------------------------------- the lag reader agrees

  /** Reading up to one cell gives the cell the whole-row reader gives. */
  lemma {:induction false} CellAtAgrees(s: seq<Byte>, cols: nat, n: nat)
    requires n < cols && Cells(s, cols).Some?
    ensures CellAt(s, n) == Some(Cells(s, cols).value[n])
    decreases n
  {
    if n > 0 { CellAtAgrees(TakeCell(s).value.rest, cols - 1, n - 1); }
  }

  /** Looking for the target moves over the same packets as skipping them, and stays in range. */
  lemma {:induction false} FindTargetSkips(s: seq<Byte>, i: nat, n: nat, found: Option<nat>)
    requires found.Some? ==> found.value < i
    ensures var f := FindTarget(s, i, n, found);
            if f.None? then SkipPackets(s, n).None?
            else SkipPackets(s, n) == Some(f.value.rest) && (f.value.value.Some? ==> f.value.value.value < i + n)
    decreases n
  {
    hide TakePacket, IsLagName, ColumnName;
    if n > 0 && TakePacket(s).Some? {
      var p := TakePacket(s).value;
      FindTargetSkips(p.rest, i + 1, n - 1, if IsLagName(ColumnName(p.value)) then Some(i) else found);
    }
  }

  /** The number of the lag column, as the definitions of the response give it. */
  function LagColumn(bytes: seq<Byte>): Option<nat> {
    var n :- ColumnCount(bytes);
    var target :- FindTarget(n.rest, 0, n.value, None);
    target.value
  }

  /** The lag according to the full parse: the first row's lag column, if there are both. */
  function LagOfRows(rows: seq<Row>, column: Option<nat>): Option<nat> {
    if rows == [] || column.None? || column.value >= |rows[0]| then None else LagOfCell(rows[0][column.value])
  }

  lemma {:induction false} LagOfPacketAgrees(s: seq<Byte>, cols: nat, target: Option<nat>)
    requires Rows(s, cols).Some? && cols > 0 && (target.Some? ==> target.value < cols)
    ensures LagOfPacket(TakePacket(s).value.value, target) == LagOfRows(Rows(s, cols).value, target)
  {
    var pkt := TakePacket(s).value.value;
    if !ClosesRows(pkt) {
      if target.Some? { CellAtAgrees(pkt, cols, target.value); }
    } else if target.Some? {
      assert TakeCell(pkt).None?;
    }
  }

  /** On every response the full parser accepts, the early-exit reader reports the lag of the first
      row's lag column, and nothing when there is no row or no such column. */
  lemma {:induction false} LagAgreesWithRows(bytes: seq<Byte>)
    requires TextRows(bytes).Some?
    ensures Lag(bytes) == LagOfRows(TextRows(bytes).value, LagColumn(bytes))
    ensures TextRows(bytes).value != [] && LagColumn(bytes).Some? ==>
              LagColumn(bytes).value < |TextRows(bytes).value[0]|
  {
    var n := ColumnCount(bytes).value;
    if n.value > 0 {
      FindTargetSkips(n.rest, 0, n.value, None);
      var target := FindTarget(n.rest, 0, n.value, None).value;
      LagOfPacketAgrees(TakePacket(target.rest).value.rest, n.value, target.value);
    }
  }

  // ---------------------------------------------------------------- the lag of an encoded set

  /** The payload of a column definition: the strings before the name, the name, and the rest. */
  function EncodeDef(front: seq<seq<Byte>>, name: seq<Byte>, more: seq<Byte>): seq<Byte>
    requires |name| < LIMIT && forall i :: 0 <= i < |front| ==> |front[i]| < LIMIT
  {
    if front == [] then EncodeCell(Some(name)) + more
    else EncodeCell(Some(front[0])) + EncodeDef(front[1..], name, more)
  }

  lemma {:induction false} SkipsStrings(front: seq<seq<Byte>>, name: seq<Byte>, more: seq<Byte>)
    requires |name| < LIMIT && forall i :: 0 <= i < |front| ==> |front[i]| < LIMIT
    ensures SkipStrings(EncodeDef(front, name, more), |front|) == Some(EncodeCell(Some(name)) + more)
    decreases front
  {
    if front != [] {
      TakesCell(Some(front[0]), EncodeDef(front[1..], name, more));
      SkipsStrings(front[1..], name, more);
    }
  }

  /** The name reader inverts the encoding of a column definition. */
  lemma {:induction false} ColumnNameReads(front: seq<seq<Byte>>, name: seq<Byte>, more: seq<Byte>)
    requires |front| == 4 && |name| < LIMIT && forall i :: 0 <= i < |front| ==> |front[i]| < LIMIT
    ensures ColumnName(EncodeDef(front, name, more)) == Some(name)
  {
    SkipsStrings(front, name, more);
    TakesCell(Some(name), more);
  }

  predicate IsLagDef(p: Packet) { IsLagName(ColumnName(p.payload)) }

  /** The last definition that carries a lag name. */
  predicate IsLastLagDef(defs: seq<Packet>, k: nat) {
    k < |defs| && IsLagDef(defs[k]) && forall j :: k < j < |defs| ==> !IsLagDef(defs[j])
  }

  lemma {:induction false} FindsNone(defs: seq<Packet>, more: seq<Byte>, i: nat, found: Option<nat>)
    requires AllFit(defs) && forall j :: 0 <= j < |defs| ==> !IsLagDef(defs[j])
    ensures FindTarget(EncodePackets(defs, more), i, |defs|, found) == Some(Took(found, more))
    decreases defs
  {
    if defs != [] {
      TakesPacket(defs[0], EncodePackets(defs[1..], more));
      assert !IsLagDef(defs[0]);
      FindsNone(defs[1..], more, i + 1, found);
    }
  }

  lemma {:induction false} FindsLast(defs: seq<Packet>, more: seq<Byte>, i: nat, found: Option<nat>, k: nat)
    requires AllFit(defs) && IsLastLagDef(defs, k)
    ensures FindTarget(EncodePackets(defs, more), i, |defs|, found) == Some(Took(Some(i + k), more))
    decreases defs
  {
    hide TakePacket, EncodePacket, IsLagName, ColumnName;
    TakesPacket(defs[0], EncodePackets(defs[1..], more));
    if k == 0 {
      assert IsLagDef(defs[0]);
      assert forall j :: 0 <= j < |defs[1..]| ==> defs[1..][j] == defs[j + 1];
      FindsNone(defs[1..], more, i + 1, Some(i));
    } else {
      assert defs[1..][k - 1] == defs[k];
      assert forall j :: 0 <= j < |defs[1..]| ==> defs[1..][j] == defs[j + 1];
      FindsLast(defs[1..], more, i + 1, if IsLagDef(defs[0]) then Some(i) else found, k - 1);
    }
  }

  lemma {:induction false} LagColumnOfEncoded(t: ResultSet, k: nat)
    requires t.WellFormed() && IsLastLagDef(t.defs, k)
    ensures LagColumn(t.Encode()) == Some(k)
  {
    hide ColumnCount, ColumnName, IsLagName, IsLastLagDef, EncodePackets, FindTarget;
    TakesColumnCount(t);
    FindsLast(t.defs, t.AfterDefs(), 0, None, k);
  }

  /** On an encoded set with a row whose last lag column is number `k`, the reader reports that cell. */
  lemma {:induction false} LagOfEncoded(t: ResultSet, k: nat)
    requires t.WellFormed() && t.rows != [] && IsLastLagDef(t.defs, k)
    ensures Lag(t.Encode()) == LagOfCell(t.rows[0].cells[k])
  {
    hide Lag, LagColumn, TextRows, LagOfCell, t.Encode, IsLagName, ColumnName;
    RoundTrip(t);
    LagColumnOfEncoded(t, k);
    LagAgreesWithRows(t.Encode());
  }

  // ---------------------------------------------------------------- decimal seconds

  function Decimal(n: nat): (s: seq<Byte>)
    ensures s != [] && AllDigits(s)
  {
    if n < 10 then [(48 + n) as Byte] else Decimal(n / 10) + [(48 + n % 10) as Byte]
  }

  lemma {:induction false} DecimalValue(n: nat)
    ensures DigitsValue(Decimal(n)) == n
  {
    if n < 10 {
      assert Decimal(n)[..0] == [];
    } else {
      DecimalValue(n / 10);
      assert Decimal(n)[..|Decimal(n)| - 1] == Decimal(n / 10);
    }
  }

  /** A cell holding `secs` in decimal reports 1000 * secs milliseconds exactly when that fits 64 bits. */
  lemma {:induction false} LagIsThousandfold(secs: nat)
    requires secs < U64
    ensures LagOfCell(Some(Decimal(secs))) == Some(1000 * secs) <==> 1000 * secs < U64
  {
    DecimalValue(secs);
    var d := Decimal(secs);
    assert IsDigit(d[0]);
    assert ParseU64(d) == Some(secs);
  }

  /** `z` zeros, as digits. */
  function Zeros(z: nat): (s: seq<Byte>)
    ensures |s| == z && forall i :: 0 <= i < z ==> s[i] == 48
  {
    seq(z, _ => 48)
  }

  /** A decimal numeral of value `n`: an optional plus sign, any zeros, and the digits of `n`. */
  ghost predicate NumeralOf(v: seq<Byte>, n: nat) {
    exists plus: bool, z: nat :: v == Numeral(plus, z, n)
  }

  function Numeral(plus: bool, z: nat, n: nat): seq<Byte> {
    (if plus then [43] else []) + Zeros(z) + Decimal(n)
  }

  lemma {:induction false} DigitsOfJoined(a: seq<Byte>, b: seq<Byte>)
    requires AllDigits(a) && AllDigits(b) && DigitsValue(a) == 0
    ensures AllDigits(a + b) && DigitsValue(a + b) == DigitsValue(b)
    decreases b
  {
    if b == [] {
      assert a + b == a;
    } else {
      DigitsOfJoined(a, b[..|b| - 1]);
      assert (a + b)[..|a + b| - 1] == a + b[..|b| - 1];
    }
  }

  lemma {:induction false} ZerosValue(z: nat)
    ensures AllDigits(Zeros(z)) && DigitsValue(Zeros(z)) == 0
  {
    if z > 0 {
      ZerosValue(z - 1);
      assert Zeros(z)[..z - 1] == Zeros(z - 1);
    }
  }

  /** Digits are zeros and the decimal form of their value. */
  lemma {:induction false} DigitsAreNumeral(d: seq<Byte>) returns (z: nat)
    requires d != [] && AllDigits(d)
    ensures d == Zeros(z) + Decimal(DigitsValue(d))
  {
    var n := |d| - 1;
    var front, last := d[..n], d[n] as int - 48;
    assert d == front + [d[n]] && IsDigit(d[n]);
    if front == [] {
      z := 0;
      assert d == [d[0]] && DigitsValue(d[..0]) == 0;
    } else {
      z := DigitsAreNumeral(front);
      var v := DigitsValue(front);
      assert DigitsValue(d) == 10 * v + last;
      hide DigitsValue, AllDigits;
      Associative(Zeros(z), Decimal(v), [d[n]]);
      if v == 0 {
        ZeroMore(z);
        z := z + 1;
      } else {
        DecimalMore(v, d[n]);
      }
    }
  }

  lemma {:induction false} ZeroMore(z: nat)
    ensures Zeros(z) + Decimal(0) == Zeros(z + 1)
  {
  }

  lemma {:induction false} DecimalMore(v: nat, digit: Byte)
    requires v > 0 && IsDigit(digit)
    ensures Decimal(10 * v + (digit as int - 48)) == Decimal(v) + [digit]
  {
  }

  lemma {:induction false} NumeralParses(plus: bool, z: nat, n: nat)
    ensures ParseU64(Numeral(plus, z, n)) == if n < U64 then Some(n) else None
  {
    ZerosValue(z);
    DecimalValue(n);
    var d := Zeros(z) + Decimal(n);
    DigitsOfJoined(Zeros(z), Decimal(n));
    assert d != [] && IsDigit(d[0]);
    hide DigitsValue, Decimal;
    var v := Numeral(plus, z, n);
    if plus {
      assert v[0] == 43 && v[1..] == d;
    } else {
      assert v == d;
    }
  }

  lemma {:induction false} ParsedIsNumeral(v: seq<Byte>)
    requires ParseU64(v).Some?
    ensures NumeralOf(v, ParseU64(v).value) && ParseU64(v).value < U64
  {
    var plus := v != [] && v[0] == 43;
    var d := if plus then v[1..] else v;
    var sign: seq<Byte> := if plus then [43] else [];
    assert v == sign + d;
    var n := ParseU64(v).value;
    assert AllDigits(d) && d != [] && DigitsValue(d) == n;
    hide ParseU64, AllDigits, DigitsValue, Decimal, Zeros;
    var z := DigitsAreNumeral(d);
    Associative(sign, Zeros(z), Decimal(n));
    assert v == Numeral(plus, z, n);
  }

  lemma {:induction false} Associative(a: seq<Byte>, b: seq<Byte>, c: seq<Byte>)
    ensures a + b + c == a + (b + c)
  {
  }

  // ---------------------------------------------------------------- the lag, in plain terms

  /** A column definition by its strings: four before the name, the name, and the rest. */
  datatype Column = Column(front: seq<seq<Byte>>, name: seq<Byte>, more: seq<Byte>) {
    predicate Fits() { |front| == 4 && |name| < LIMIT && forall i :: 0 <= i < |front| ==> |front[i]| < LIMIT }

    predicate IsLag() { name == Ascii("Seconds_Behind_Source") || name == Ascii("Seconds_Behind_Master") }
  }

  /** The definitions of `t` are those of `columns`. */
  predicate Defines(t: ResultSet, columns: seq<Column>) {
    && |columns| == |t.defs|
    && forall i :: 0 <= i < |columns| ==>
         columns[i].Fits() && t.defs[i].payload == EncodeDef(columns[i].front, columns[i].name, columns[i].more)
  }

  lemma {:induction false} LagDefs(t: ResultSet, columns: seq<Column>)
    requires Defines(t, columns)
    ensures forall i :: 0 <= i < |columns| ==> IsLagDef(t.defs[i]) == columns[i].IsLag()
  {
    forall i | 0 <= i < |columns| ensures IsLagDef(t.defs[i]) == columns[i].IsLag() {
      var c := columns[i];
      assert c.Fits();
      ColumnNameReads(c.front, c.name, c.more);
    }
  }

  lemma {:induction false} CellLag(cell: Cell)
    ensures cell == None ==> LagOfCell(cell) == Some(0)
    ensures forall secs: nat :: cell.Some? && secs < U64 && NumeralOf(cell.value, secs) ==>
              LagOfCell(cell) == Some(1000 * secs % U64)
    ensures LagOfCell(cell) == None <==>
              cell.Some? && forall secs: nat :: NumeralOf(cell.value, secs) ==> secs >= U64
  {
    hide ParseU64;
    if cell.Some? {
      forall secs: nat | NumeralOf(cell.value, secs)
        ensures ParseU64(cell.value) == if secs < U64 then Some(secs) else None
      {
        var plus: bool, z: nat :| cell.value == Numeral(plus, z, secs);
        NumeralParses(plus, z, secs);
      }
      if ParseU64(cell.value).Some? { ParsedIsNumeral(cell.value); }
    }
  }

  /** The lag of a response, from the cell of the first row under the last lag column: 0 for NULL, 1000
      times its value, in 64 bits, for a decimal numeral below 2^64, and none for anything else. */
  lemma {:induction false} LagIs(t: ResultSet, columns: seq<Column>, k: nat)
    requires t.WellFormed() && Defines(t, columns) && t.rows != []
    requires k < |columns| && columns[k].IsLag() && forall j :: k < j < |columns| ==> !columns[j].IsLag()
    ensures var cell := t.rows[0].cells[k];
            && (cell == None ==> Lag(t.Encode()) == Some(0))
            && (forall secs: nat :: cell.Some? && secs < U64 && NumeralOf(cell.value, secs) ==>
                  Lag(t.Encode()) == Some(1000 * secs % U64))
            && (Lag(t.Encode()) == None <==>
                  cell.Some? && forall secs: nat :: NumeralOf(cell.value, secs) ==> secs >= U64)
  {
    LagDefs(t, columns);
    assert IsLastLagDef(t.defs, k);
    hide Lag, LagOfCell, t.Encode, NumeralOf, IsLagDef, EncodeDef;
    LagOfEncoded(t, k);
    CellLag(t.rows[0].cells[k]);
  }

  /** A response with no row or no lag column reports none. */
  lemma {:induction false} NoLag(t: ResultSet, columns: seq<Column>)
    requires t.WellFormed() && Defines(t, columns)
    requires t.rows == [] || forall j :: 0 <= j < |columns| ==> !columns[j].IsLag()
    ensures Lag(t.Encode()) == None
  {
    RoundTrip(t);
    LagDefs(t, columns);
    LagAgreesWithRows(t.Encode());
    if t.rows != [] {
      TakesColumnCount(t);
      FindsNone(t.defs, t.AfterDefs(), 0, None);
    }
    hide Lag, TextRows, t.Encode, IsLagDef;
  }
}
