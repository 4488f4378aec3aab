/** The reading of a whole batch-mode `top` capture: the banner lines that are skipped, the
    iteration count taken from the `top -` banners, the column-count check, the repair of
    commands that contain spaces, and the decoding of the retained rows. */
module TopCapture {

  import opened Wrappers
  import opened GoStrings
  import opened Strconv
  import opened TopRow

  // ---------------------------------------------------------------- banner lines

  /** The starts of the lines `top` prints above its process table in each cycle. */
  const BYTES_TO_SKIP: seq<string> := [
    "top -", "Tasks: ", "%Cpu(s): ", "Cpu(s): ", "KiB Mem :", "KiB Swap :",
    "Mem: ", "Swap: ", "MiB Mem :", "MiB Swap:", "PID "]

  /** The banner that opens each refresh cycle. */
  const CYCLE_BANNER: string := "top -"

  /** Whether one of `prefixes` starts `line`, tried in order. */
  function AnyPrefix(line: string, prefixes: seq<string>): bool {
    if prefixes == [] then false
    else if HasPrefix(line, prefixes[0]) then true
    else AnyPrefix(line, prefixes[1..])
  }

  /** The prefix search succeeds exactly when some prefix of the list starts the line. */
  lemma {:induction false} AnyPrefixMeaning(line: string, prefixes: seq<string>)
    ensures AnyPrefix(line, prefixes) <==> exists k :: 0 <= k < |prefixes| && HasPrefix(line, prefixes[k])
  {
    if prefixes != [] && !HasPrefix(line, prefixes[0]) {
      AnyPrefixMeaning(line, prefixes[1..]);
      assert forall k :: 1 <= k < |prefixes| ==> prefixes[k] == prefixes[1..][k - 1];
    }
  }

  /** `topRowToSkip`: the loop over the banner prefixes that returns at the first match. */
  function TopRowToSkip(line: string): bool {
    AnyPrefix(line, BYTES_TO_SKIP)
  }

  /** A line is skipped if and only if one of the eleven banner prefixes starts it. */
  lemma TopRowToSkipMeaning(line: string)
    ensures TopRowToSkip(line) <==> exists k :: 0 <= k < |BYTES_TO_SKIP| && HasPrefix(line, BYTES_TO_SKIP[k])
  {
    AnyPrefixMeaning(line, BYTES_TO_SKIP);
  }

  /** A process line starts with its process id, so it is never taken for a banner. */
  lemma ProcessLineNotSkipped(line: string)
    requires line != [] && IsDigit(line[0])
    ensures !TopRowToSkip(line)
  {
    forall k | 0 <= k < |BYTES_TO_SKIP|
      ensures !HasPrefix(line, BYTES_TO_SKIP[k])
    {
      var p := BYTES_TO_SKIP[k];
      assert p != [] && line[0] != p[0];
    }
    TopRowToSkipMeaning(line);
  }

  /** The column header line is skipped. */
  lemma HeaderLineSkipped(rest: string)
    ensures TopRowToSkip("PID " + rest)
  {
    var line := "PID " + rest;
    assert line[..4] == "PID ";
    assert HasPrefix(line, BYTES_TO_SKIP[10]);
    TopRowToSkipMeaning(line);
  }

  // ---------------------------------------------------------------- the line loop

  /** How the line loop reads one line of the capture. */
  datatype LineKind =
      /** a line of white space only */
    | Blank
      /** a banner line; `opensCycle` for the `top -` line that opens a refresh cycle */
    | Banner(opensCycle: bool)
      /** any other line: the fields of a process row */
    | Process(tokens: seq<string>)

  /** The loop's reading of one raw line: it is trimmed, skipped when blank or a banner line, and
      otherwise split, trimmed once more, into fields. */
  function Classify(raw: string): LineKind {
    var line := TrimSpace(raw);
    ClassifyTrimmed(line, TopRowToSkip(line))
  }

  /** The reading of a trimmed line, given whether it starts with a banner prefix. */
  function ClassifyTrimmed(line: string, skip: bool): LineKind {
    if |line| == 0 then Blank
    else if skip then Banner(HasPrefix(line, CYCLE_BANNER))
    else Process(Fields(TrimSpace(line)))
  }

  /** The reading of a line, stated on the raw line: blank lines are white space only; banner
      lines start, once trimmed, with one of the banner prefixes; a cycle is opened exactly by a
      line that starts, once trimmed, with `top -`; the other lines are split into fields. */
  lemma ClassifyMeaning(raw: string)
    ensures Classify(raw) == Blank <==> AllSpace(raw)
    ensures Classify(raw).Banner? <==>
      !AllSpace(raw) && exists k :: 0 <= k < |BYTES_TO_SKIP| && HasPrefix(TrimSpace(raw), BYTES_TO_SKIP[k])
    ensures Classify(raw) == Banner(true) <==> HasPrefix(TrimSpace(raw), CYCLE_BANNER)
    ensures Classify(raw).Process? ==> Classify(raw).tokens == Fields(TrimSpace(raw))
  {
    var line := TrimSpace(raw);
    TopRowToSkipMeaning(line);
    TrimSpaceIdempotent(raw);
    if HasPrefix(line, CYCLE_BANNER) {
      assert HasPrefix(line, BYTES_TO_SKIP[0]);
    }
  }

  /** A token row the decoder can be given: all twelve columns, and a state token that is not
      blank. */
  predicate WellFormed(row: seq<string>) {
    |row| >= |HEADERS| && TrimSpace(row[S_IDX]) != []
  }

  /** Every row of `rows` can be given to the decoder. */
  predicate AllWellFormed(rows: seq<seq<string>>) {
    forall k :: 0 <= k < |rows| ==> WellFormed(rows[k])
  }

  /** The overflow repair: when a command containing spaces was split into extra tokens, the
      tokens from the `COMMAND` column on are joined with single spaces and the result is
      written into the last slot of the row, whose length does not change. */
  function Repair(row: seq<string>): seq<string>
    requires |row| >= |HEADERS|
  {
    if |row| > |HEADERS| then row[|row| - 1 := Join(row[|HEADERS| - 1..], " ")] else row
  }

  /** The repair of a row that is too long, as the loop does it. */
  lemma RepairInPlace(row: seq<string>)
    requires |row| > |HEADERS|
    ensures Repair(row) == row[|row| - 1 := Join(row[|HEADERS| - 1..], " ")]
  {
  }

  /** What the repair changes: only the last slot, and only for a row that is too long; so the
      `COMMAND` column keeps the first word of the command. */
  lemma RepairKeepsColumns(row: seq<string>)
    requires |row| >= |HEADERS|
    ensures |Repair(row)| == |row|
    ensures forall k :: 0 <= k < |row| - 1 ==> Repair(row)[k] == row[k]
    ensures Repair(row)[COMMAND_IDX] == row[COMMAND_IDX]
    ensures |row| > |HEADERS| ==> Repair(row)[|row| - 1] == Join(row[COMMAND_IDX..], " ")
  {
  }

  /** A command of several words: the `COMMAND` column keeps the first word, and the last slot
      holds the whole command, from which the words can be split back. */
  lemma RepairOfSpacedCommand(cols: seq<string>, words: seq<string>)
    requires |cols| == COMMAND_IDX && |words| >= 2
    requires forall x :: x in words ==> IsWord(x)
    ensures var row := cols + words; var fixed := Repair(row);
      fixed[COMMAND_IDX] == words[0] && fixed[|row| - 1] == Join(words, " ") &&
      Fields(fixed[|row| - 1]) == words
  {
    var row := cols + words;
    assert row[COMMAND_IDX..] == words;
    FieldsOfJoin(words);
  }

  /** A full row of fields, once repaired, can be given to the decoder. */
  predicate Decodable(kind: LineKind) {
    kind.Process? && |kind.tokens| >= |HEADERS| ==> WellFormed(Repair(kind.tokens))
  }

  /** The fields of a line are words, so the state token of a full row is never blank. */
  lemma ClassifyDecodable(raw: string)
    ensures Decodable(Classify(raw))
  {
    var kind := Classify(raw);
    if kind.Process? && |kind.tokens| >= |HEADERS| {
      var row := kind.tokens;
      assert row == Fields(TrimSpace(TrimSpace(raw)));
      FieldsAreWords(TrimSpace(TrimSpace(raw)));
      assert row[S_IDX] in row;
      WordNotBlank(row[S_IDX]);
      RepairKeepsColumns(row);
      assert Repair(row)[S_IDX] == row[S_IDX];
    }
  }

  /** A word is not blank. */
  lemma WordNotBlank(w: string)
    requires IsWord(w)
    ensures TrimSpace(w) != []
  {
    assert !AllSpace(w) by {
      assert !IsSpace(w[0]);
    }
  }

  /** The state of the line loop: the token rows kept so far, the iteration count, and the
      short row that ended the loop, if one did. */
  datatype Scan = Scan(rows: seq<seq<string>>, iterations: int, short: Option<seq<string>>)

  /** One pass of the line loop's body. */
  function Step(sc: Scan, kind: LineKind): Scan {
    if sc.short.Some? then sc
    else
      match kind
      case Blank => sc
      case Banner(opensCycle) => if opensCycle then sc.(iterations := sc.iterations + 1) else sc
      case Process(row) =>
        if |row| < |HEADERS| then sc.(short := Some(row))
        else if sc.iterations > 0 then sc.(rows := sc.rows + [Repair(row)])
        else sc
  }

  /** The line loop over lines read as `kinds`, started before the first cycle with the count
      at -1, since the startup cycle does not count. */
  function ScanKinds(kinds: seq<LineKind>): Scan {
    if kinds == [] then Scan([], -1, None)
    else Step(ScanKinds(kinds[..|kinds| - 1]), kinds[|kinds| - 1])
  }

  /** The reading of each line. */
  function Kinds(lines: seq<string>): (kinds: seq<LineKind>)
    ensures |kinds| == |lines|
  {
    seq(|lines|, k requires 0 <= k < |lines| => Classify(lines[k]))
  }

  /** The line loop over the lines of a capture. */
  function ScanLines(lines: seq<string>): Scan {
    ScanKinds(Kinds(lines))
  }

  /** The reading of a prefix of the lines is a prefix of the reading. */
  lemma KindsOfPrefix(lines: seq<string>, i: nat)
    requires i <= |lines|
    ensures Kinds(lines[..i]) == Kinds(lines)[..i]
  {
  }

  /** One pass over a raw line, spelled out as the loop body makes it. */
  lemma StepOfLine(sc: Scan, raw: string)
    requires sc.short.None?
    ensures var line := TrimSpace(raw);
      Step(sc, Classify(raw)) ==
        if |line| == 0 then sc
        else if TopRowToSkip(line) then
          (if HasPrefix(line, CYCLE_BANNER) then sc.(iterations := sc.iterations + 1) else sc)
        else
          var row := Fields(TrimSpace(line));
          if |row| < |HEADERS| then sc.(short := Some(row))
          else if sc.iterations > 0 then sc.(rows := sc.rows + [Repair(row)])
          else sc
  {
    var line := TrimSpace(raw);
    StepOfTrimmed(sc, line, TopRowToSkip(line));
  }

  /** One pass over a trimmed line, given whether it starts with a banner prefix. */
  lemma StepOfTrimmed(sc: Scan, line: string, skip: bool)
    requires sc.short.None?
    ensures Step(sc, ClassifyTrimmed(line, skip)) ==
        if |line| == 0 then sc
        else if skip then
          (if HasPrefix(line, CYCLE_BANNER) then sc.(iterations := sc.iterations + 1) else sc)
        else
          var row := Fields(TrimSpace(line));
          if |row| < |HEADERS| then sc.(short := Some(row))
          else if sc.iterations > 0 then sc.(rows := sc.rows + [Repair(row)])
          else sc
  {
  }

  /** The loop over one more line of the capture is one more pass. */
  lemma ScanLinesSnoc(lines: seq<string>, i: nat)
    requires i < |lines|
    ensures ScanLines(lines[..i + 1]) == Step(ScanLines(lines[..i]), Classify(lines[i]))
  {
    KindsOfPrefix(lines, i);
    KindsOfPrefix(lines, i + 1);
    ScanSnoc(Kinds(lines), i);
  }

  /** Once a short row has ended the loop, later lines of the capture change nothing. */
  lemma ScanLinesShortIsFinal(lines: seq<string>, i: nat)
    requires i <= |lines| && ScanLines(lines[..i]).short.Some?
    ensures ScanLines(lines) == ScanLines(lines[..i])
  {
    KindsOfPrefix(lines, i);
    ShortIsFinal(Kinds(lines), i);
  }

  // ---------------------------------------------------------------- what the loop computes

  /** A process row with fewer columns than the table has. */
  predicate IsShort(kind: LineKind) {
    kind.Process? && |kind.tokens| < |HEADERS|
  }

  /** The number of lines that open a refresh cycle. */
  function Banners(kinds: seq<LineKind>): nat {
    if kinds == [] then 0
    else Banners(kinds[..|kinds| - 1]) + (if kinds[|kinds| - 1] == Banner(true) then 1 else 0)
  }

  /** The rows the parser keeps: the repaired fields of each full process row that comes after
      the second cycle banner, so that the startup cycle is dropped; blank and banner lines are
      never kept. */
  function Retained(kinds: seq<LineKind>): seq<seq<string>> {
    if kinds == [] then []
    else
      var prev := kinds[..|kinds| - 1];
      var last := kinds[|kinds| - 1];
      if last.Process? && |last.tokens| >= |HEADERS| && Banners(prev) >= 2
      then Retained(prev) + [Repair(last.tokens)]
      else Retained(prev)
  }

  /** One pass of the loop in terms of the kind of line read: a short row ends the loop; a
      full row is kept once the startup cycle is over; a cycle banner counts. */
  lemma StepCases(sc: Scan, kind: LineKind)
    requires sc.short.None?
    ensures IsShort(kind) ==> Step(sc, kind) == sc.(short := Some(kind.tokens))
    ensures !IsShort(kind) ==> Step(sc, kind) == Scan(
      if kind.Process? && sc.iterations > 0 then sc.rows + [Repair(kind.tokens)] else sc.rows,
      sc.iterations + (if kind == Banner(true) then 1 else 0),
      None)
  {
  }

  /** The loop over one more line is one more pass. */
  lemma ScanSnoc(kinds: seq<LineKind>, i: nat)
    requires i < |kinds|
    ensures ScanKinds(kinds[..i + 1]) == Step(ScanKinds(kinds[..i]), kinds[i])
  {
    assert kinds[..i + 1][..i] == kinds[..i];
  }

  /** Every row the loop keeps can be given to the decoder. */
  lemma {:induction false} ScanRowsWellFormed(kinds: seq<LineKind>)
    requires forall k :: 0 <= k < |kinds| ==> Decodable(kinds[k])
    ensures AllWellFormed(ScanKinds(kinds).rows)
  {
    if kinds != [] {
      var prev := kinds[..|kinds| - 1];
      assert forall k :: 0 <= k < |prev| ==> prev[k] == kinds[k];
      ScanRowsWellFormed(prev);
      assert Decodable(kinds[|kinds| - 1]);
    }
  }

  /** Every row the loop keeps from a capture can be given to the decoder. */
  lemma ScanLinesWellFormed(lines: seq<string>)
    ensures AllWellFormed(ScanLines(lines).rows)
  {
    var kinds := Kinds(lines);
    forall k | 0 <= k < |kinds|
      ensures Decodable(kinds[k])
    {
      ClassifyDecodable(lines[k]);
    }
    ScanRowsWellFormed(kinds);
  }

  /** Without a short row, the loop counts the cycle banners less one, and keeps exactly the
      retained rows. */
  lemma {:induction false} ScanWithoutShort(kinds: seq<LineKind>)
    requires forall k :: 0 <= k < |kinds| ==> !IsShort(kinds[k])
    ensures ScanKinds(kinds) == Scan(Retained(kinds), Banners(kinds) - 1, None)
  {
    if kinds != [] {
      var prev := kinds[..|kinds| - 1];
      assert forall k :: 0 <= k < |prev| ==> prev[k] == kinds[k];
      ScanWithoutShort(prev);
      StepCases(ScanKinds(prev), kinds[|kinds| - 1]);
    }
  }

  /** Once a short row has ended the loop, later lines change nothing. */
  lemma {:induction false} ShortIsFinal(kinds: seq<LineKind>, i: nat)
    requires i <= |kinds| && ScanKinds(kinds[..i]).short.Some?
    ensures ScanKinds(kinds) == ScanKinds(kinds[..i])
    decreases |kinds| - i
  {
    if i < |kinds| {
      assert kinds[..i + 1][..i] == kinds[..i];
      ShortIsFinal(kinds, i + 1);
    } else {
      assert kinds[..i] == kinds;
    }
  }

  /** The first short row ends the loop: the error reports its fields, and the count is that of
      the cycle banners before it, less one. */
  lemma ScanWithShort(kinds: seq<LineKind>, k: nat)
    requires k < |kinds| && IsShort(kinds[k])
    requires forall j :: 0 <= j < k ==> !IsShort(kinds[j])
    ensures ScanKinds(kinds).short == Some(kinds[k].tokens)
    ensures ScanKinds(kinds).iterations == Banners(kinds[..k]) - 1
  {
    var before := ScanBeforeShort(kinds, k);
    ScanSnoc(kinds, k);
    StepCases(before, kinds[k]);
    ShortIsFinal(kinds, k + 1);
  }

  /** The loop up to the first short row has not stopped, and has counted the banners so far. */
  lemma ScanBeforeShort(kinds: seq<LineKind>, k: nat) returns (sc: Scan)
    requires k <= |kinds|
    requires forall j :: 0 <= j < k ==> !IsShort(kinds[j])
    ensures sc == ScanKinds(kinds[..k])
    ensures sc.short.None? && sc.iterations == Banners(kinds[..k]) - 1
  {
    var prev := kinds[..k];
    assert forall j :: 0 <= j < |prev| ==> !IsShort(prev[j]);
    ScanWithoutShort(prev);
    sc := ScanKinds(prev);
  }

  /** The position of the first short row of `kinds`, which has one. */
  lemma {:induction false} FirstShort(kinds: seq<LineKind>) returns (k: nat)
    requires exists k :: 0 <= k < |kinds| && IsShort(kinds[k])
    ensures k < |kinds| && IsShort(kinds[k])
    ensures forall j :: 0 <= j < k ==> !IsShort(kinds[j])
  {
    var prev := kinds[..|kinds| - 1];
    if exists j :: 0 <= j < |prev| && IsShort(prev[j]) {
      k := FirstShort(prev);
    } else {
      k := |kinds| - 1;
    }
  }

  /** The loop ends early exactly when some process row is short, wherever it stands: before
      the first banner, in the startup cycle or later. */
  lemma ShortRowAborts(kinds: seq<LineKind>)
    ensures ScanKinds(kinds).short.Some? <==> exists k :: 0 <= k < |kinds| && IsShort(kinds[k])
  {
    if forall k :: 0 <= k < |kinds| ==> !IsShort(kinds[k]) {
      ScanWithoutShort(kinds);
    } else {
      var k := FirstShort(kinds);
      ScanWithShort(kinds, k);
    }
  }

  /** With at most one cycle banner, that of the startup cycle, no row is retained. */
  lemma {:induction false} StartupOnlyKeepsNothing(kinds: seq<LineKind>)
    requires Banners(kinds) <= 1
    ensures Retained(kinds) == []
  {
    if kinds != [] {
      StartupOnlyKeepsNothing(kinds[..|kinds| - 1]);
    }
  }

  /** A count of zero or less, with no short row, comes with no rows: a capture without a
      banner keeps nothing and counts -1, a capture of the startup cycle only counts 0. */
  lemma NoMeasurementNoRows(kinds: seq<LineKind>)
    requires ScanKinds(kinds).short.None? && ScanKinds(kinds).iterations <= 0
    ensures ScanKinds(kinds).rows == []
    ensures ScanKinds(kinds).iterations == -1 <==> Banners(kinds) == 0
  {
    ShortRowAborts(kinds);
    ScanWithoutShort(kinds);
    StartupOnlyKeepsNothing(kinds);
  }

  /** Every retained row is the repaired fields of a full process row of the capture. */
  lemma {:induction false} RetainedFromProcessRows(kinds: seq<LineKind>)
    ensures forall r :: r in Retained(kinds) ==>
      exists k :: 0 <= k < |kinds| && kinds[k].Process? && |kinds[k].tokens| >= |HEADERS| &&
                  r == Repair(kinds[k].tokens)
  {
    if kinds != [] {
      var prev := kinds[..|kinds| - 1];
      RetainedFromProcessRows(prev);
      assert forall k :: 0 <= k < |prev| ==> prev[k] == kinds[k];
    }
  }

  // ---------------------------------------------------------------- decoding the rows

  /** The decoding of each retained row, in order. */
  function ParseAll(rows: seq<seq<string>>): (r: seq<WithError<Row, ParseError>>)
    requires AllWellFormed(rows)
    ensures |r| == |rows|
  {
    seq(|rows|, k requires 0 <= k < |rows| => ParseRow(rows[k]))
  }

  /** The values of a list of results. */
  function Values<T, E>(rs: seq<WithError<T, E>>): (vs: seq<T>)
    ensures |vs| == |rs| && forall k :: 0 <= k < |rs| ==> vs[k] == rs[k].value
  {
    seq(|rs|, k requires 0 <= k < |rs| => rs[k].value)
  }

  lemma ValuesConcat<T, E>(a: seq<WithError<T, E>>, b: seq<WithError<T, E>>)
    ensures Values(a + b) == Values(a) + Values(b)
  {
    assert forall k :: 0 <= k < |a + b| ==> Values(a + b)[k] == (Values(a) + Values(b))[k];
  }

  /** Results that arrive in another order carry the same values in another order. */
  lemma {:induction false} ValuesPermutation<T, E>(a: seq<WithError<T, E>>, b: seq<WithError<T, E>>)
    requires multiset(a) == multiset(b)
    ensures multiset(Values(a)) == multiset(Values(b))
    decreases |a|
  {
    if a == [] {
      assert |b| == |multiset(b)| == 0;
    } else {
      var x := a[0];
      assert x in multiset(b);
      var j :| 0 <= j < |b| && b[j] == x;
      var b' := b[..j] + b[j + 1..];
      MultisetRemove(b, j);
      assert a == [x] + a[1..];
      assert multiset(a[1..]) == multiset(b');
      ValuesPermutation(a[1..], b');
      ValuesCons(x, a[1..]);
      ValuesRemove(b, j);
      AddBack(multiset(Values(b)), x.value);
    }
  }

  lemma ValuesCons<T, E>(x: WithError<T, E>, rest: seq<WithError<T, E>>)
    ensures multiset(Values([x] + rest)) == multiset{x.value} + multiset(Values(rest))
  {
    ValuesConcat([x], rest);
    assert Values([x]) == [x.value];
  }

  lemma AddBack<X>(m: multiset<X>, v: X)
    requires v in m
    ensures multiset{v} + (m - multiset{v}) == m
  {
  }

  /** Taking one element out of a sequence takes it out of its multiset. */
  lemma MultisetRemove<X>(b: seq<X>, j: nat)
    requires j < |b|
    ensures multiset(b[..j] + b[j + 1..]) == multiset(b) - multiset{b[j]}
  {
    assert b == b[..j] + [b[j]] + b[j + 1..];
  }

  /** Taking one result out takes its row out of the decoded rows. */
  lemma ValuesRemove<T, E>(b: seq<WithError<T, E>>, j: nat)
    requires j < |b|
    ensures multiset(Values(b[..j] + b[j + 1..])) == multiset(Values(b)) - multiset{b[j].value}
    ensures b[j].value in multiset(Values(b))
  {
    var vs := Values(b);
    assert Values(b[..j] + b[j + 1..]) == vs[..j] + vs[j + 1..];
    MultisetRemove(vs, j);
  }

  /** Whether every result is a success. */
  predicate AllOk<T, E>(results: seq<WithError<T, E>>) {
    forall k :: 0 <= k < |results| ==> results[k].Ok()
  }

  /** The line loop of `Parse`: skips blank and banner lines, counts the cycle banners, stops
      at the first short row, repairs overlong rows in place and keeps the rows read after the
      startup cycle. */
  method ReadLines(lines: seq<string>) returns (kept: seq<seq<string>>, iterations: int, short: Option<seq<string>>)
    ensures var sc := ScanLines(lines);
      iterations == sc.iterations && short == sc.short && (short.None? ==> kept == sc.rows)
  {
    kept := [];
    iterations := -1;
    for i := 0 to |lines|
      invariant ScanLines(lines[..i]) == Scan(kept, iterations, None)
    {
      ScanLinesSnoc(lines, i);
      StepOfLine(ScanLines(lines[..i]), lines[i]);
      var line := TrimSpace(lines[i]);
      if |line| == 0 {
        continue;
      }
      if TopRowToSkip(line) {
        if HasPrefix(line, CYCLE_BANNER) {
          iterations := iterations + 1;
        }
        continue;
      }
      var row := Fields(TrimSpace(line));
      ghost var fields := row;
      if |row| < |HEADERS| {
        ScanLinesShortIsFinal(lines, i + 1);
        return [], iterations, Some(row);
      } else if |row| > |HEADERS| {
        var command := Join(row[|HEADERS| - 1..], " ");
        row := row[|row| - 1 := command];
        RepairInPlace(fields);
      }
      assert row == Repair(fields);
      if iterations > 0 {
        kept := kept + [row];
      }
    }
    assert lines[..|lines|] == lines;
    short := None;
  }

  /** What `Parse` promises about a capture `s`: the iteration count is the number of cycle
      banners less one; a short process line makes it fail with that line's fields and no rows;
      otherwise, when every retained row decodes, the rows are those decodings in some order
      and a count of zero is reported as `NoMeasurement`; and when some row fails, there are no
      rows and the error is the error of one of the failing rows. */
  predicate ParseOutcome(s: string, rows: seq<Row>, iterations: int, err: Option<ParseError>) {
    ScanOutcome(ScanLines(Split(s, '\n')), rows, iterations, err)
  }

  /** The same, given the state `sc` at the end of the line loop. */
  predicate ScanOutcome(sc: Scan, rows: seq<Row>, iterations: int, err: Option<ParseError>) {
    AllWellFormed(sc.rows) && iterations == sc.iterations &&
    (sc.short.Some? ==> rows == [] && err == Some(ColumnCount(sc.short.value))) &&
    (sc.short.None? && AllOk(ParseAll(sc.rows)) ==>
      multiset(rows) == multiset(Values(ParseAll(sc.rows))) &&
      err == (if iterations == 0 then Some(NoMeasurement) else None)) &&
    (sc.short.None? && !AllOk(ParseAll(sc.rows)) ==>
      rows == [] &&
      exists k :: 0 <= k < |sc.rows| && !ParseAll(sc.rows)[k].Ok() && err == ParseAll(sc.rows)[k].err)
  }

  /** `Parse`: reads the capture line by line, then decodes the retained rows. A short row ends
      the reading at once; a count of zero after the startup cycle is reported as an error
      beside the decoded rows. */
  method Parse(s: string) returns (rows: seq<Row>, iterations: int, err: Option<ParseError>)
    ensures ParseOutcome(s, rows, iterations, err)
  {
    var lines := Split(s, '\n');
    ScanLinesWellFormed(lines);
    var kept, short;
    kept, iterations, short := ReadLines(lines);
    if short.Some? {
      return [], iterations, Some(ColumnCount(short.value));
    }
    var failure;
    rows, failure := DecodeRows(kept);
    if failure.Some? {
      return [], iterations, failure;
    }
    if iterations == 0 {
      return rows, 0, Some(NoMeasurement);
    }
    return rows, iterations, None;
  }

  /** The fan-out and gathering of `Parse`: each row is decoded on its own and the results
      arrive in some order, which is any order; the first failure to arrive is returned. */
  method DecodeRows(kept: seq<seq<string>>) returns (rows: seq<Row>, err: Option<ParseError>)
    requires AllWellFormed(kept)
    ensures err.None? <==> AllOk(ParseAll(kept))
    ensures err.None? ==> multiset(rows) == multiset(Values(ParseAll(kept)))
    ensures err.Some? ==>
      rows == [] && exists k :: 0 <= k < |kept| && !ParseAll(kept)[k].Ok() && err == ParseAll(kept)[k].err
  {
    var results := ParseAll(kept);
    var arrivals: seq<WithError<Row, ParseError>> :| multiset(arrivals) == multiset(results);
    SameResults(results, arrivals);
    rows, err := Gather(arrivals);
    if err.Some? {
      ghost var k :| 0 <= k < |arrivals| && !arrivals[k].Ok() && err == arrivals[k].err;
      assert arrivals[k] in results;
    }
  }

  /** What `Parse` promises, read in terms of the lines of the capture: without a short row,
      the count is the number of cycle banners less one, the rows are the decodings of the
      retained rows in some order, and the capture is reported as without measurement exactly
      when it has one banner; otherwise the first short row is the error, with the banners
      before it counted. */
  lemma ParseOutcomeMeaning(s: string, rows: seq<Row>, iterations: int, err: Option<ParseError>)
    requires ParseOutcome(s, rows, iterations, err)
    ensures var kinds := Kinds(Split(s, '\n'));
      (forall k :: 0 <= k < |kinds| ==> !IsShort(kinds[k])) ==>
        iterations == Banners(kinds) - 1 && AllWellFormed(Retained(kinds)) &&
        (AllOk(ParseAll(Retained(kinds))) ==>
          multiset(rows) == multiset(Values(ParseAll(Retained(kinds)))) &&
          (err.None? <==> Banners(kinds) != 1)) &&
        (!AllOk(ParseAll(Retained(kinds))) ==>
          rows == [] &&
          exists k :: 0 <= k < |Retained(kinds)| && !ParseAll(Retained(kinds))[k].Ok() &&
                      err == ParseAll(Retained(kinds))[k].err) &&
        (Banners(kinds) == 0 ==> rows == [] && iterations == -1 && err.None?)
    ensures var kinds := Kinds(Split(s, '\n'));
      (exists k :: 0 <= k < |kinds| && IsShort(kinds[k])) ==>
        rows == [] &&
        exists k :: 0 <= k < |kinds| && IsShort(kinds[k]) &&
          (forall j :: 0 <= j < k ==> !IsShort(kinds[j])) &&
          err == Some(ColumnCount(kinds[k].tokens)) && iterations == Banners(kinds[..k]) - 1
  {
    var kinds := Kinds(Split(s, '\n'));
    if forall k :: 0 <= k < |kinds| ==> !IsShort(kinds[k]) {
      NoShortOutcome(kinds, rows, iterations, err);
    } else {
      ShortCaseOutcome(kinds, rows, iterations, err);
    }
  }

  /** The outcome of a capture with a short row: no rows, and the error and the count come from
      the first short row. */
  lemma ShortCaseOutcome(kinds: seq<LineKind>, rows: seq<Row>, iterations: int, err: Option<ParseError>)
    requires exists k :: 0 <= k < |kinds| && IsShort(kinds[k])
    requires ScanOutcome(ScanKinds(kinds), rows, iterations, err)
    ensures rows == []
    ensures exists k :: 0 <= k < |kinds| && IsShort(kinds[k]) &&
                        (forall j :: 0 <= j < k ==> !IsShort(kinds[j])) &&
                        err == Some(ColumnCount(kinds[k].tokens)) &&
                        iterations == Banners(kinds[..k]) - 1
  {
    var k := FirstShort(kinds);
    ShortOutcome(kinds, k, rows, iterations, err);
  }

  /** The outcome of a capture without a short row. */
  lemma NoShortOutcome(kinds: seq<LineKind>, rows: seq<Row>, iterations: int, err: Option<ParseError>)
    requires forall k :: 0 <= k < |kinds| ==> !IsShort(kinds[k])
    requires ScanOutcome(ScanKinds(kinds), rows, iterations, err)
    ensures iterations == Banners(kinds) - 1 && AllWellFormed(Retained(kinds))
    ensures AllOk(ParseAll(Retained(kinds))) ==>
      multiset(rows) == multiset(Values(ParseAll(Retained(kinds)))) &&
      (err.None? <==> Banners(kinds) != 1)
    ensures var results := ParseAll(Retained(kinds));
      !AllOk(results) ==>
        rows == [] && exists k :: 0 <= k < |results| && !results[k].Ok() && err == results[k].err
    ensures Banners(kinds) == 0 ==> rows == [] && iterations == -1 && err.None?
  {
    ScanWithoutShort(kinds);
    if Banners(kinds) == 0 {
      StartupOnlyKeepsNothing(kinds);
      assert multiset(rows) == multiset{};
    }
  }

  /** The outcome of a capture whose first short row is at `k`. */
  lemma ShortOutcome(kinds: seq<LineKind>, k: nat, rows: seq<Row>, iterations: int, err: Option<ParseError>)
    requires k < |kinds| && IsShort(kinds[k])
    requires forall j :: 0 <= j < k ==> !IsShort(kinds[j])
    requires ScanOutcome(ScanKinds(kinds), rows, iterations, err)
    ensures rows == [] && err == Some(ColumnCount(kinds[k].tokens)) &&
            iterations == Banners(kinds[..k]) - 1
  {
    ScanWithShort(kinds, k);
  }

  /** The receive loop of `Parse`: takes the results in the order they arrive until all have
      come, and stops at the first failure. */
  method Gather<T, E>(arrivals: seq<WithError<T, E>>) returns (vs: seq<T>, err: Option<E>)
    ensures err.None? <==> AllOk(arrivals)
    ensures err.None? ==> vs == Values(arrivals)
    ensures err.Some? ==>
      vs == [] &&
      exists k :: 0 <= k < |arrivals| && !arrivals[k].Ok() && err == arrivals[k].err &&
                  forall j :: 0 <= j < k ==> arrivals[j].Ok()
  {
    vs := [];
    while |vs| != |arrivals|
      invariant |vs| <= |arrivals|
      invariant vs == Values(arrivals[..|vs|])
      invariant forall j :: 0 <= j < |vs| ==> arrivals[j].Ok()
      decreases |arrivals| - |vs|
    {
      var rs := arrivals[|vs|];
      if !rs.Ok() {
        return [], rs.err;
      }
      assert arrivals[..|vs| + 1] == arrivals[..|vs|] + [rs];
      ValuesConcat(arrivals[..|vs|], [rs]);
      vs := vs + [rs.value];
    }
    assert arrivals[..|vs|] == arrivals;
    return vs, None;
  }

  /** Results gathered in another order: the same results, all successful or not alike, with
      the same values. */
  lemma SameResults<T, E>(results: seq<WithError<T, E>>, arrivals: seq<WithError<T, E>>)
    requires multiset(arrivals) == multiset(results)
    ensures forall x :: x in arrivals <==> x in results
    ensures AllOk(arrivals) <==> AllOk(results)
    ensures multiset(Values(arrivals)) == multiset(Values(results))
  {
    assert forall x :: x in arrivals <==> x in multiset(results);
    if AllOk(arrivals) {
      forall k | 0 <= k < |results|
        ensures results[k].Ok()
      {
        assert results[k] in results;
        assert results[k] in arrivals;
      }
    }
    if AllOk(results) {
      forall k | 0 <= k < |arrivals|
        ensures arrivals[k].Ok()
      {
        assert arrivals[k] in arrivals;
        assert arrivals[k] in results;
      }
    }
    ValuesPermutation(arrivals, results);
  }
}
