/**
  The traced memory bus of the emulator. Every access through `read_byte` or
  `write_byte` hands one record to the trace sink; this module gives that record
  as a value (`BusAccess`) and the fixed-width text line the source formats for it
  ("AAAA r VV\n" for a read, "AAAA W VV\n" for a write, upper-case hexadecimal).
*/
module Bus {
  import opened Wrappers

  /** A 16-bit address (`uint16_t`). */
  type Addr = i: int | 0 <= i < 0x10000

  /** A byte value (`uint8_t`). */
  type Byte = i: int | 0 <= i < 0x100

  /** One memory access as the trace sink sees it. */
  datatype BusAccess = Read(addr: Addr, value: Byte) | Write(addr: Addr, value: Byte)

  /** The upper-case hexadecimal digit for a nibble. */
  function HexDigit(n: int): (c: char)
    requires 0 <= n < 16
    ensures '0' <= c <= '9' || 'A' <= c <= 'F'
  {
    if n < 10 then ('0' as int + n) as char
    else ('A' as int + n - 10) as char
  }

  /** The nibble an upper-case hexadecimal digit stands for; nothing for any other character. */
  function DigitValue(c: char): (r: Option<int>)
    ensures r.Some? <==> '0' <= c <= '9' || 'A' <= c <= 'F'
    ensures r.Some? ==> 0 <= r.value < 16
  {
    if '0' <= c <= '9' then Some(c as int - '0' as int)
    else if 'A' <= c <= 'F' then Some(c as int - 'A' as int + 10)
    else None
  }

  /** `%02X`: a byte as exactly two digits, high nibble first. */
  function Hex2(v: Byte): (s: string)
    ensures |s| == 2
  {
    [HexDigit(v / 16), HexDigit(v % 16)]
  }

  /** `%04X`: a 16-bit address as exactly four digits, high byte first. */
  function Hex4(v: Addr): (s: string)
    ensures |s| == 4
  {
    Hex2(v / 0x100) + Hex2(v % 0x100)
  }

  function Direction(acc: BusAccess): char
  {
    if acc.Read? then 'r' else 'W'
  }

  /** The trace line `read_byte` and `write_byte` format for one access. */
  function TraceLine(acc: BusAccess): (line: string)
    ensures |line| == 10
    ensures line[4] == ' ' && line[6] == ' ' && line[9] == '\n'
    ensures line[5] == (if acc.Read? then 'r' else 'W')
  {
    Hex4(acc.addr) + [' ', Direction(acc), ' '] + Hex2(acc.value) + ['\n']
  }

  function ParseHex2(s: string): (r: Option<Byte>)
    requires |s| == 2
  {
    match (DigitValue(s[0]), DigitValue(s[1]))
    case (Some(hi), Some(lo)) => Some(hi * 16 + lo)
    case _ => None
  }

  /** Reads a trace line back into the access it records. */
  function ParseTraceLine(line: string): Option<BusAccess>
  {
    if |line| != 10 || line[4] != ' ' || line[6] != ' ' || line[9] != '\n' then None
    else
      match (ParseHex2(line[0..2]), ParseHex2(line[2..4]), ParseHex2(line[7..9]))
      case (Some(hi), Some(lo), Some(v)) =>
        var addr: int := hi as int * 0x100 + lo as int;
        if line[5] == 'r' then Some(Read(addr, v))
        else if line[5] == 'W' then Some(Write(addr, v))
        else None
      case _ => None
  }

  lemma DigitRoundTrip(n: int)
    requires 0 <= n < 16
    ensures DigitValue(HexDigit(n)) == Some(n)
  {
  }

  lemma DigitCanonical(c: char)
    requires DigitValue(c).Some?
    ensures HexDigit(DigitValue(c).value) == c
  {
  }

  lemma Hex2RoundTrip(v: Byte)
    ensures ParseHex2(Hex2(v)) == Some(v)
  {
    DigitRoundTrip(v / 16);
    DigitRoundTrip(v % 16);
  }

  lemma Hex2Canonical(s: string)
    requires |s| == 2 && ParseHex2(s).Some?
    ensures Hex2(ParseHex2(s).value) == s
  {
    var hi, lo := DigitValue(s[0]).value, DigitValue(s[1]).value;
    assert ParseHex2(s).value == hi * 16 + lo;
    DigitCanonical(s[0]);
    DigitCanonical(s[1]);
  }

  /** A trace line identifies the access exactly: address, direction and value read back unchanged. */
  lemma TraceLineRoundTrip(acc: BusAccess)
    ensures ParseTraceLine(TraceLine(acc)) == Some(acc)
  {
    var line := TraceLine(acc);
    var hi, lo := acc.addr / 0x100, acc.addr % 0x100;
    Hex2RoundTrip(hi);
    Hex2RoundTrip(lo);
    Hex2RoundTrip(acc.value);
    assert line[0..2] == Hex2(hi) && line[2..4] == Hex2(lo) && line[7..9] == Hex2(acc.value);
  }

  lemma ParseTraceLineParts(line: string)
    requires ParseTraceLine(line).Some?
    ensures |line| == 10 && line[4] == ' ' && line[6] == ' ' && line[9] == '\n'
    ensures ParseHex2(line[0..2]).Some? && ParseHex2(line[2..4]).Some? && ParseHex2(line[7..9]).Some?
    ensures ParseTraceLine(line).value.addr
         == ParseHex2(line[0..2]).value * 0x100 + ParseHex2(line[2..4]).value
    ensures ParseTraceLine(line).value.value == ParseHex2(line[7..9]).value
    ensures line[5] == Direction(ParseTraceLine(line).value)
  {
  }

  /** The converse: every line the parser accepts is the trace line of what it parses to. */
  lemma ParsedLineIsTraceLine(line: string)
    requires ParseTraceLine(line).Some?
    ensures TraceLine(ParseTraceLine(line).value) == line
  {
    ParseTraceLineParts(line);
    var acc := ParseTraceLine(line).value;
    var hi, lo := ParseHex2(line[0..2]).value, ParseHex2(line[2..4]).value;
    Hex2Canonical(line[0..2]);
    Hex2Canonical(line[2..4]);
    Hex2Canonical(line[7..9]);
    assert acc.addr / 0x100 == hi && acc.addr % 0x100 == lo;
    assert Hex4(acc.addr) == line[0..4];
    assert TraceLine(acc) == line[0..4] + [line[4], line[5], line[6]] + line[7..9] + [line[9]];
  }
}
