/** Decoding of one data line of a batch-mode `top` capture: the memory quantities with their
    unit suffixes, the one-letter process state, and the twelve columns of a process row. */
module TopRow {

  import opened Wrappers
  import opened GoStrings
  import opened Strconv

  // ---------------------------------------------------------------- memory quantities

  /** `humanize.Bytes(n)`: the human-readable rendering of a byte count, which the model keeps
      uninterpreted; `NoText` is the empty string returned beside an error. */
  datatype HumanText = NoText | Humanized(bytes: uint64)

  /** What `parseMemoryTxt` returns: the byte count and its rendering. */
  datatype Memory = Memory(bytes: uint64, human: HumanText)

  /** `1024^k` */
  function Pow1024(k: nat): (p: nat)
    ensures p >= 1
  {
    if k == 0 then 1 else 1024 * Pow1024(k - 1)
  }

  /** The power of 1024 a trimmed memory token is scaled by: `top` prints KiB without a suffix
      and marks MiB, GiB and TiB with `m`, `g` and `t`. */
  function UnitPower(s: string): nat {
    if HasSuffix(s, "m") then 2
    else if HasSuffix(s, "g") then 3
    else if HasSuffix(s, "t") then 4
    else 1
  }

  /** The numeral of a trimmed memory token: the token without its unit suffix. */
  function Numeral(s: string): string {
    if HasSuffix(s, "m") || HasSuffix(s, "g") || HasSuffix(s, "t") then s[..|s| - 1] else s
  }

  /** `uint64(f)` of a float: its integer part, reduced modulo 2^64. */
  function ToUint64(t: int): uint64 {
    t % TWO_64
  }

  /** `x * 1024` on `uint64`, which wraps modulo 2^64. */
  function Times1024(x: uint64): uint64 {
    (x * 1024) % TWO_64
  }

  /** `t * 1024^k` as a `uint64`, reduced modulo 2^64. */
  function Scaled(t: int, k: nat): uint64 {
    (t * Pow1024(k)) % TWO_64
  }

  /** A successful result of `parseMemoryTxt` for `b` bytes. */
  function Bytes(b: uint64): WithError<Memory, NumError> {
    WithError(Memory(b, Humanized(b)), None)
  }

  /** `parseMemoryTxt`: the token is trimmed, its unit suffix split off and the numeral parsed
      as a float, which is truncated to an unsigned integer before it is multiplied by 1024 once
      per unit step, with 64-bit wrap-around. A numeral that does not parse is an error, and the
      result beside it is zero bytes and no text. */
  function ParseMemoryTxt(s0: string): (r: WithError<Memory, NumError>)
    ensures var s := TrimSpace(s0); var f := ParseFloat(Numeral(s));
      (r.Ok() <==> f.Ok()) &&
      (r.Ok() ==> r.value.bytes == Scaled(Trunc(f.value), UnitPower(s))) &&
      (r.Ok() ==> r.value.human == Humanized(r.value.bytes)) &&
      (!r.Ok() ==> r.value == Memory(0, NoText) && r.err == f.err)
  {
    var s := TrimSpace(s0);
    if HasSuffix(s, "m") then
      var mib := ParseFloat(s[..|s| - 1]);
      if !mib.Ok() then WithError(Memory(0, NoText), mib.err)
      else
        ScaleSteps(Trunc(mib.value), 2);
        Bytes(Times1024(Times1024(ToUint64(Trunc(mib.value)))))
    else if HasSuffix(s, "g") then
      var gib := ParseFloat(s[..|s| - 1]);
      if !gib.Ok() then WithError(Memory(0, NoText), gib.err)
      else
        ScaleSteps(Trunc(gib.value), 3);
        Bytes(Times1024(Times1024(Times1024(ToUint64(Trunc(gib.value))))))
    else if HasSuffix(s, "t") then
      var tib := ParseFloat(s[..|s| - 1]);
      if !tib.Ok() then WithError(Memory(0, NoText), tib.err)
      else
        ScaleSteps(Trunc(tib.value), 4);
        Bytes(Times1024(Times1024(Times1024(Times1024(ToUint64(Trunc(tib.value)))))))
    else
      var kib := ParseFloat(s);
      if !kib.Ok() then WithError(Memory(0, NoText), kib.err)
      else
        ScaleSteps(Trunc(kib.value), 1);
        Bytes(Times1024(ToUint64(Trunc(kib.value))))
  }

  /** Multiplying by 1024 after reducing modulo 2^64 is the same as reducing afterwards. */
  lemma MulModulus(a: int)
    ensures Times1024(a % TWO_64) == (a * 1024) % TWO_64
  {
    var q, m := a / TWO_64, a % TWO_64;
    assert a == q * TWO_64 + m;
    var q2, r2 := (m * 1024) / TWO_64, (m * 1024) % TWO_64;
    assert m * 1024 == q2 * TWO_64 + r2;
    assert a * 1024 == (q * 1024 + q2) * TWO_64 + r2;
    ModUnique(a * 1024, q * 1024 + q2, r2);
  }

  /** The remainder is the only one in range. */
  lemma ModUnique(n: int, q: int, r: int)
    requires n == q * TWO_64 + r && 0 <= r < TWO_64
    ensures n % TWO_64 == r
  {
  }

  /** `k` wrapping multiplications by 1024 give the product with `1024^k`, reduced once. */
  lemma {:induction false} ScaleSteps(t: int, k: nat)
    ensures (k >= 1 ==> Times1024(ToUint64(t)) == Scaled(t, 1))
    ensures (k >= 2 ==> Times1024(Times1024(ToUint64(t))) == Scaled(t, 2))
    ensures (k >= 3 ==> Times1024(Times1024(Times1024(ToUint64(t)))) == Scaled(t, 3))
    ensures (k >= 4 ==> Times1024(Times1024(Times1024(Times1024(ToUint64(t))))) ==
                        Scaled(t, 4))
  {
    MulModulus(t);
    MulModulus(t * 1024);
    MulModulus(t * 1024 * 1024);
    MulModulus(t * 1024 * 1024 * 1024);
    assert Pow1024(2) == 1024 * 1024;
    assert Pow1024(3) == 1024 * 1024 * 1024;
    assert Pow1024(4) == 1024 * 1024 * 1024 * 1024;
  }

  /** The unit power a suffix stands for. */
  function SuffixPower(suffix: string): nat {
    if suffix == "m" then 2 else if suffix == "g" then 3 else if suffix == "t" then 4 else 1
  }

  /** A numeral that starts with a digit and ends with a digit or a point, followed by a unit
      suffix, is read as that numeral in that unit. */
  lemma TokenParts(numeral: string, suffix: string)
    requires numeral != [] && IsDigit(numeral[0])
    requires IsDigit(numeral[|numeral| - 1]) || numeral[|numeral| - 1] == '.'
    requires suffix in {"", "m", "g", "t"}
    ensures var s := numeral + suffix;
      TrimSpace(s) == s && Numeral(s) == numeral && UnitPower(s) == SuffixPower(suffix)
  {
    var s := numeral + suffix;
    assert s[0] == numeral[0];
    assert s[|s| - 1] == (if suffix == "" then numeral[|numeral| - 1] else suffix[0]);
    TrimmedIsFixed(s);
    if suffix == "" {
      assert s == numeral;
      assert !HasSuffix(s, "m") && !HasSuffix(s, "g") && !HasSuffix(s, "t");
    } else {
      assert s[..|s| - 1] == numeral;
      assert s[|s| - 1..] == suffix;
    }
  }

  /** Memory tokens as `top` prints them, a number of units followed by the unit suffix, decode to
      that many bytes. */
  lemma MemoryRoundTrip(n: nat, suffix: string)
    requires suffix in {"", "m", "g", "t"}
    ensures ParseMemoryTxt(FormatNat(n) + suffix) == Bytes(Scaled(n, SuffixPower(suffix)))
  {
    TokenParts(FormatNat(n), suffix);
    FormatNatParsesAsFloat(n);
  }

  /** A bare unit letter or an empty token is not a number. */
  lemma BareUnitFails(s: string)
    requires s in {"", "m", "g", "t"}
    ensures ParseMemoryTxt(s) == WithError(Memory(0, NoText), Some(NumError("ParseFloat", "", ErrSyntax)))
  {
    TrimmedIsFixed(s);
    assert Numeral(s) == "" by {
      if s != "" {
        assert HasSuffix(s, s);
        assert s[..|s| - 1] == "";
      }
    }
    assert !ParseFloat("").Ok();
  }

  /** The integer part is kept before scaling: a fraction changes nothing, so `1.5g` is one
      GiB. */
  lemma TruncatesBeforeScaling(n: nat, fraction: string, suffix: string)
    requires AllDigits(fraction) && suffix in {"", "m", "g", "t"}
    ensures ParseMemoryTxt(FormatNat(n) + "." + fraction + suffix) == ParseMemoryTxt(FormatNat(n) + suffix)
  {
    var d := FormatNat(n);
    var lit := d + "." + fraction;
    assert lit[0] == d[0];
    assert lit[|lit| - 1] == (if fraction == [] then '.' else fraction[|fraction| - 1]);
    TokenParts(lit, suffix);
    ParseFloatPlain(d, fraction);
    MemoryRoundTrip(n, suffix);
  }

  // ---------------------------------------------------------------- process state

  /** What `parseStatus` returns: the fixed label of a known state code, or the fallback
      `unknown process %q` that quotes the whole, untrimmed input, kept uninterpreted here.
      `NoStatus` is the empty string of a row that was never filled. */
  datatype StatusText = NoStatus | Label(text: string) | UnknownProcess(input: string)

  /** The state codes `parseStatus` knows. */
  const STATUS_CODES: string := "DRSTtZ"

  function StatusLabel(c: char): string
    requires c in STATUS_CODES
  {
    match c
    case 'D' => "D (uninterruptible sleep)"
    case 'R' => "R (running)"
    case 'S' => "S (sleeping)"
    case 'T' => "T (stopped by job control signal)"
    case 't' => "t (stopped by debugger during trace)"
    case 'Z' => "Z (zombie)"
  }

  /** The state code a byte string one byte long stands for, if it is one of the known codes. */
  function CodeOf(key: seq<byte>): Option<char> {
    if key == [0x44] then Some('D')
    else if key == [0x52] then Some('R')
    else if key == [0x53] then Some('S')
    else if key == [0x54] then Some('T')
    else if key == [0x74] then Some('t')
    else if key == [0x5A] then Some('Z')
    else None
  }

  /** `parseStatus`: the input is trimmed and, when the input is more than one byte long, cut
      to its first byte; that key selects the label of its state code. Only the first character
      of the trimmed input decides, so `S<` (sleeping, high priority) is sleeping. Go slices an
      empty string when the input is more than one byte of white space, so the model requires
      that this does not happen. */
  function ParseStatus(s: string): (r: StatusText)
    requires !(|Utf8(s)| > 1 && TrimSpace(s) == [])
    ensures var ns := TrimSpace(s);
      if ns != [] && ns[0] in STATUS_CODES then r == Label(StatusLabel(ns[0]))
      else r == UnknownProcess(s)
  {
    var ns := TrimSpace(s);
    var key := if |Utf8(s)| > 1 then Utf8(ns)[..1] else Utf8(ns);
    KeyDecides(s);
    match CodeOf(key)
    case Some(c) => Label(StatusLabel(c))
    case None => UnknownProcess(s)
  }

  /** The key `parseStatus` switches on names a state code exactly when the first character of
      the trimmed input is that code. */
  lemma KeyDecides(s: string)
    requires !(|Utf8(s)| > 1 && TrimSpace(s) == [])
    ensures var ns := TrimSpace(s);
      var key := if |Utf8(s)| > 1 then Utf8(ns)[..1] else Utf8(ns);
      CodeOf(key) == if ns != [] && ns[0] in STATUS_CODES then Some(ns[0]) else None
  {
    var ns := TrimSpace(s);
    if |Utf8(s)| > 1 {
      FirstByteDecides(ns);
    } else if ns != [] {
      ShortInput(s);
      FirstByteDecides(ns);
    }
  }

  /** An input at most one byte long that is not blank is one ASCII character, its own trimming. */
  lemma ShortInput(s: string)
    requires |Utf8(s)| <= 1 && TrimSpace(s) != []
    ensures TrimSpace(s) == s && Utf8(s) == Utf8(s)[..1]
  {
    assert |s| == 1 && |Utf8(s)| == 1;
    assert !IsSpace(s[0]) by {
      assert !AllSpace(s);
    }
    TrimmedIsFixed(s);
  }

  lemma FirstByteDecides(ns: string)
    requires ns != []
    ensures CodeOf(Utf8(ns)[..1]) == if ns[0] in STATUS_CODES then Some(ns[0]) else None
  {
    var b := RuneBytes(ns[0]);
    assert Utf8(ns)[..1] == [b[0]];
    if b[0] < 0x80 {
      assert b == [ns[0] as int];
    }
  }

  /** A state code followed by `top`'s modifier characters (`<`, `N`, `s`, `l`, `+`, ...)
      decodes as that state, so `S<` is `S (sleeping)`. */
  lemma StateWithModifiers(c: char, modifiers: string)
    requires c in STATUS_CODES && NoSpace(modifiers)
    ensures ParseStatus([c] + modifiers) == Label(StatusLabel(c))
  {
    var s := [c] + modifiers;
    assert s[0] == c && s[|s| - 1] == (if modifiers == [] then c else modifiers[|modifiers| - 1]);
    assert !IsSpace(c);
    TrimmedIsFixed(s);
    assert !AllSpace(s);
  }

  /** A token whose first non-blank character is not a state code decodes as unknown, quoting
      the raw, untrimmed token, leading blanks included. */
  lemma UnknownKeepsRawInput(pad: string, c: char, rest: string)
    requires AllSpace(pad) && !IsSpace(c) && c !in STATUS_CODES
    ensures TrimSpace(pad + [c] + rest) != [] &&
            ParseStatus(pad + [c] + rest) == UnknownProcess(pad + [c] + rest)
  {
    var s := pad + [c] + rest;
    var u := [c] + rest;
    assert s == pad + u;
    assert s[|pad|] == c;
    assert !AllSpace(s);
    TrimLeftOfSpace(pad, u);
    assert TrimLeft(u) == u;
    var t := TrimSpace(s);
    assert t == TrimRight(u);
    assert t != [] && t == u[..|t|];
    assert t[0] == c;
  }

  // ---------------------------------------------------------------- rows

  /** The column names of the process table, in the order of the columns. */
  const HEADERS: seq<string> :=
    ["PID", "USER", "PR", "NI", "VIRT", "RES", "SHR", "S", "%CPU", "%MEM", "TIME+", "COMMAND"]

  /** The positions of the columns within a row of fields. */
  const PID_IDX: nat := 0
  const USER_IDX: nat := 1
  const PR_IDX: nat := 2
  const NI_IDX: nat := 3
  const VIRT_IDX: nat := 4
  const RES_IDX: nat := 5
  const SHR_IDX: nat := 6
  const S_IDX: nat := 7
  const CPU_IDX: nat := 8
  const MEM_IDX: nat := 9
  const TIME_IDX: nat := 10
  const COMMAND_IDX: nat := 11

  /** One process of the table. `virt`, `res` and `shr` are the raw tokens, beside the byte
      counts and renderings decoded from them; `s` is the raw state token. */
  datatype Row = Row(
    pid: int64,
    user: string,
    pr: string,
    ni: string,
    virt: string,
    virtBytesN: uint64,
    virtParsedBytes: HumanText,
    res: string,
    resBytesN: uint64,
    resParsedBytes: HumanText,
    shr: string,
    shrBytesN: uint64,
    shrParsedBytes: HumanText,
    s: string,
    sParsedStatus: StatusText,
    cpuPercent: Decimal,
    memPercent: Decimal,
    time: string,
    command: string)

  /** `Row{}`, returned beside an error. */
  const EMPTY_ROW: Row :=
    Row(0, "", "", "", "", 0, NoText, "", 0, NoText, "", 0, NoText, "", NoStatus, ZERO, ZERO, "", "")

  /** The errors the parser creates, with the values they format. */
  datatype ParseError =
      /** `parse error %v (row %v)`: a column did not decode. */
    | FieldError(cause: NumError, row: seq<string>)
      /** `unexpected row column number %v (expected %v)`, the second value being the headers. */
    | ColumnCount(row: seq<string>)
      /** `top did not take a significant measurement besides startup` */
    | NoMeasurement

  /** The outcome of each check `parseRow` makes, in the order it makes them: the process id,
      the three memory columns, then the two percentages. */
  function Checks(row: seq<string>): (c: seq<Option<NumError>>)
    requires |row| >= |HEADERS|
    ensures |c| == 6
  {
    [ ParseInt(row[PID_IDX]).err,
      ParseMemoryTxt(row[VIRT_IDX]).err,
      ParseMemoryTxt(row[RES_IDX]).err,
      ParseMemoryTxt(row[SHR_IDX]).err,
      ParseFloat(row[CPU_IDX]).err,
      ParseFloat(row[MEM_IDX]).err ]
  }

  /** The first failure in a list of outcomes. */
  function FirstError(errs: seq<Option<NumError>>): (r: Option<NumError>)
    ensures r.None? <==> forall k :: 0 <= k < |errs| ==> errs[k].None?
    ensures r.Some? ==> exists k :: 0 <= k < |errs| && errs[k] == r &&
                                    forall j :: 0 <= j < k ==> errs[j].None?
  {
    if errs == [] then None
    else if errs[0].Some? then errs[0]
    else
      var r := FirstError(errs[1..]);
      assert r.Some? ==> exists k :: 1 <= k < |errs| && errs[k] == r &&
                                     forall j :: 0 <= j < k ==> errs[j].None? by {
        if r.Some? {
          var k :| 0 <= k < |errs[1..]| && errs[1..][k] == r &&
                   forall j :: 0 <= j < k ==> errs[1..][j].None?;
          assert errs[k + 1] == r;
          assert forall j :: 1 <= j < k + 1 ==> errs[j] == errs[1..][j - 1];
        }
      }
      r
  }

  /** The first failure among six outcomes, case by case. */
  lemma FirstOfSix(c: seq<Option<NumError>>)
    requires |c| == 6
    ensures FirstError(c) ==
      if c[0].Some? then c[0] else if c[1].Some? then c[1] else if c[2].Some? then c[2]
      else if c[3].Some? then c[3] else if c[4].Some? then c[4] else c[5]
  {
    assert c[1..][1..][1..][1..][1..][1..] == [];
  }

  /** The first failed check of a row, column by column. */
  lemma FirstFailedCheck(row: seq<string>)
    requires |row| >= |HEADERS|
    ensures FirstError(Checks(row)) ==
      if ParseInt(row[PID_IDX]).err.Some? then ParseInt(row[PID_IDX]).err
      else if ParseMemoryTxt(row[VIRT_IDX]).err.Some? then ParseMemoryTxt(row[VIRT_IDX]).err
      else if ParseMemoryTxt(row[RES_IDX]).err.Some? then ParseMemoryTxt(row[RES_IDX]).err
      else if ParseMemoryTxt(row[SHR_IDX]).err.Some? then ParseMemoryTxt(row[SHR_IDX]).err
      else if ParseFloat(row[CPU_IDX]).err.Some? then ParseFloat(row[CPU_IDX]).err
      else ParseFloat(row[MEM_IDX]).err
  {
    var c := Checks(row);
    FirstOfSix(c);
    assert c[0] == ParseInt(row[PID_IDX]).err;
    assert c[1] == ParseMemoryTxt(row[VIRT_IDX]).err;
    assert c[2] == ParseMemoryTxt(row[RES_IDX]).err;
    assert c[3] == ParseMemoryTxt(row[SHR_IDX]).err;
    assert c[4] == ParseFloat(row[CPU_IDX]).err;
    assert c[5] == ParseFloat(row[MEM_IDX]).err;
  }

  /** The failure `parseRow` reports beside an empty row. */
  function Fail(cause: NumError, row: seq<string>): WithError<Row, ParseError> {
    WithError(EMPTY_ROW, Some(FieldError(cause, row)))
  }

  /** `parseRow`: decodes the twelve columns field by field and stops at the first column that
      does not decode, reporting it with the whole row. The state column is decoded as
      `parseStatus` demands of its input. On success the raw `VIRT`, `RES`, `SHR`,
      `S`, `TIME+` and `COMMAND` tokens are copied verbatim. */
  function ParseRow(row: seq<string>): (r: WithError<Row, ParseError>)
    requires |row| >= |HEADERS|
    requires !(|Utf8(row[S_IDX])| > 1 && TrimSpace(row[S_IDX]) == [])
    ensures r.Ok() <==> FirstError(Checks(row)).None?
    ensures !r.Ok() ==> r == Fail(FirstError(Checks(row)).value, row)
    ensures r.Ok() ==>
      r.value.virt == row[VIRT_IDX] && r.value.res == row[RES_IDX] && r.value.shr == row[SHR_IDX] &&
      r.value.s == row[S_IDX] && r.value.time == row[TIME_IDX] && r.value.command == row[COMMAND_IDX]
    ensures r.Ok() ==>
      r.value.pid == IntegerValue(row[PID_IDX]) && r.value.user == TrimSpace(row[USER_IDX]) &&
      r.value.pr == TrimSpace(row[PR_IDX]) && r.value.ni == TrimSpace(row[NI_IDX])
    ensures r.Ok() ==>
      Memory(r.value.virtBytesN, r.value.virtParsedBytes) == ParseMemoryTxt(row[VIRT_IDX]).value &&
      Memory(r.value.resBytesN, r.value.resParsedBytes) == ParseMemoryTxt(row[RES_IDX]).value &&
      Memory(r.value.shrBytesN, r.value.shrParsedBytes) == ParseMemoryTxt(row[SHR_IDX]).value
    ensures r.Ok() ==>
      r.value.cpuPercent == ParseFloat(row[CPU_IDX]).value &&
      r.value.memPercent == ParseFloat(row[MEM_IDX]).value
    ensures r.Ok() ==> r.value.sParsedStatus == ParseStatus(row[S_IDX])
  {
    FirstFailedCheck(row);
    var user := TrimSpace(row[USER_IDX]);
    var pv := ParseInt(row[PID_IDX]);
    if !pv.Ok() then Fail(pv.err.value, row)
    else
      var pr := TrimSpace(row[PR_IDX]);
      var ni := TrimSpace(row[NI_IDX]);
      var virt := ParseMemoryTxt(row[VIRT_IDX]);
      if !virt.Ok() then Fail(virt.err.value, row)
      else
        var res := ParseMemoryTxt(row[RES_IDX]);
        if !res.Ok() then Fail(res.err.value, row)
        else
          var shr := ParseMemoryTxt(row[SHR_IDX]);
          if !shr.Ok() then Fail(shr.err.value, row)
          else
            var status := ParseStatus(row[S_IDX]);
            var cnum := ParseFloat(row[CPU_IDX]);
            if !cnum.Ok() then Fail(cnum.err.value, row)
            else
              var mnum := ParseFloat(row[MEM_IDX]);
              if !mnum.Ok() then Fail(mnum.err.value, row)
              else
                WithError(Row(pv.value, user, pr, ni,
                              row[VIRT_IDX], virt.value.bytes, virt.value.human,
                              row[RES_IDX], res.value.bytes, res.value.human,
                              row[SHR_IDX], shr.value.bytes, shr.value.human,
                              row[S_IDX], status, cnum.value, mnum.value,
                              row[TIME_IDX], row[COMMAND_IDX]), None)
  }
}
