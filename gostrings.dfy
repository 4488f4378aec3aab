/** The parts of Go's `strings` and `bytes` packages that the parser relies on, over strings of
    Unicode code points (Go's strings are UTF-8 bytes; `Utf8` gives those bytes where the parser
    looks at them). */
module GoStrings {

  import opened Wrappers

  /** `unicode.IsSpace`: the ASCII white space characters, NEL, NBSP and the other Unicode
      White_Space code points. `strings.TrimSpace` and `strings.Fields` both use it. */
  predicate IsSpace(c: char) {
    var n := c as int;
    (9 <= n <= 13) || n == 32 || n == 0x85 || n == 0xA0 || n == 0x1680 ||
    (0x2000 <= n <= 0x200A) || n == 0x2028 || n == 0x2029 || n == 0x202F ||
    n == 0x205F || n == 0x3000
  }

  predicate NoSpace(s: string) {
    forall k :: 0 <= k < |s| ==> !IsSpace(s[k])
  }

  /** A non-empty run of non-space characters. */
  predicate IsWord(s: string) {
    s != [] && NoSpace(s)
  }

  predicate AllSpace(s: string) {
    forall k :: 0 <= k < |s| ==> IsSpace(s[k])
  }

  /** `strings.HasPrefix` / `bytes.HasPrefix` */
  predicate HasPrefix(s: string, prefix: string) {
    |prefix| <= |s| && s[..|prefix|] == prefix
  }

  /** `strings.HasSuffix` */
  predicate HasSuffix(s: string, suffix: string) {
    |suffix| <= |s| && s[|s| - |suffix|..] == suffix
  }

  /** Drops the leading white space. */
  function TrimLeft(s: string): (r: string)
    ensures |r| <= |s| && r == s[|s| - |r|..]
    ensures forall k :: 0 <= k < |s| - |r| ==> IsSpace(s[k])
    ensures r == [] || !IsSpace(r[0])
  {
    if s != [] && IsSpace(s[0]) then TrimLeft(s[1..]) else s
  }

  /** Drops the trailing white space. */
  function TrimRight(s: string): (r: string)
    ensures |r| <= |s| && r == s[..|r|]
    ensures forall k :: |r| <= k < |s| ==> IsSpace(s[k])
    ensures r == [] || !IsSpace(r[|r| - 1])
  {
    if s != [] && IsSpace(s[|s| - 1]) then TrimRight(s[..|s| - 1]) else s
  }

  /** Leading white space is dropped whatever follows it. */
  lemma {:induction false} TrimLeftOfSpace(pad: string, s: string)
    requires AllSpace(pad)
    ensures TrimLeft(pad + s) == TrimLeft(s)
  {
    if pad != [] {
      assert (pad + s)[0] == pad[0];
      assert (pad + s)[1..] == pad[1..] + s;
      TrimLeftOfSpace(pad[1..], s);
    } else {
      assert pad + s == s;
    }
  }

  /** `strings.TrimSpace`: `s` without its leading and trailing white space. */
  function TrimSpace(s: string): (r: string)
    ensures |r| <= |s|
    ensures r == [] || (!IsSpace(r[0]) && !IsSpace(r[|r| - 1]))
    ensures r == [] <==> AllSpace(s)
  {
    var t := TrimLeft(s);
    assert t == [] ==> AllSpace(s);
    assert t != [] ==> !AllSpace(s) by {
      if t != [] { assert s[|s| - |t|] == t[0]; }
    }
    TrimRight(t)
  }

  /** A string that neither starts nor ends with white space is its own trimming. */
  lemma TrimmedIsFixed(s: string)
    requires s == [] || (!IsSpace(s[0]) && !IsSpace(s[|s| - 1]))
    ensures TrimSpace(s) == s
  {
    assert TrimLeft(s) == s;
    assert TrimRight(s) == s;
  }

  lemma TrimSpaceIdempotent(s: string)
    ensures TrimSpace(TrimSpace(s)) == TrimSpace(s)
  {
    TrimmedIsFixed(TrimSpace(s));
  }

  /** Trimming keeps the text between the leading and the trailing white space: `s` is a left
      margin `s[..i]`, then the result, then a right margin, and both margins are white space
      only (the result itself neither starts nor ends with white space, by its contract). */
  lemma TrimSpaceMeaning(s: string)
    ensures var i, r := |s| - |TrimLeft(s)|, TrimSpace(s);
      i + |r| <= |s| && r == s[i..][..|r|] && AllSpace(s[..i]) && AllSpace(s[i..][|r|..])
  {
    var t := TrimLeft(s);
    var r := TrimSpace(s);
    assert r == TrimRight(t);
    LeftMargin(s, t);
    RightMargin(t, r);
  }

  /** The margin `TrimLeft` cuts off is white space only. */
  lemma LeftMargin(s: string, t: string)
    requires t == TrimLeft(s)
    ensures AllSpace(s[..|s| - |t|])
  {
    var l := s[..|s| - |t|];
    forall k | 0 <= k < |l| ensures IsSpace(l[k]) {
      assert l[k] == s[k];
    }
  }

  /** The margin `TrimRight` cuts off is white space only. */
  lemma RightMargin(t: string, r: string)
    requires r == TrimRight(t)
    ensures AllSpace(t[|r|..])
  {
    var m := t[|r|..];
    forall k | 0 <= k < |m| ensures IsSpace(m[k]) {
      assert m[k] == t[|r| + k];
    }
  }

  /** The longest prefix of `s` that holds no white space. */
  function Word(s: string): (w: string)
    ensures |w| <= |s| && w == s[..|w|] && NoSpace(w)
    ensures |w| == |s| || IsSpace(s[|w|])
  {
    if s == [] || IsSpace(s[0]) then [] else [s[0]] + Word(s[1..])
  }

  /** `strings.Fields`: the maximal runs of non-space characters, in order; there are none
      exactly when `s` is all white space. */
  function Fields(s: string): (r: seq<string>)
    ensures r == [] <==> AllSpace(s)
    decreases |s|, 1
  {
    var t := TrimLeft(s);
    assert t != [] ==> s[|s| - |t|] == t[0];
    FieldsOfTrimmed(t)
  }

  /** The fields of a string that does not start with white space: its first word, then the
      fields of what follows. */
  function FieldsOfTrimmed(t: string): (r: seq<string>)
    requires t == [] || !IsSpace(t[0])
    ensures r == [] <==> t == []
    decreases |t|, 0
  {
    if t == [] then []
    else
      var w := Word(t);
      assert w != [];
      [w] + Fields(t[|w|..])
  }

  /** Every field is a word. */
  lemma {:induction false} FieldsAreWords(s: string)
    ensures forall x :: x in Fields(s) ==> IsWord(x)
    decreases |s|
  {
    var t := TrimLeft(s);
    if t != [] {
      var w := Word(t);
      assert w != [];
      FieldsAreWords(t[|w|..]);
      assert Fields(s) == FieldsOfTrimmed(t) == [w] + Fields(t[|w|..]);
    }
  }

  /** `strings.Join` */
  function Join(parts: seq<string>, sep: string): string
  {
    if |parts| == 0 then ""
    else if |parts| == 1 then parts[0]
    else parts[0] + sep + Join(parts[1..], sep)
  }

  lemma WordOfWord(w: string, rest: string)
    requires NoSpace(w)
    requires rest == [] || IsSpace(rest[0])
    ensures Word(w + rest) == w
    decreases |w|
  {
    if w != [] {
      assert (w + rest)[1..] == w[1..] + rest;
      WordOfWord(w[1..], rest);
    } else {
      assert w + rest == rest;
    }
  }

  /** A word followed by white space or nothing is the first field. */
  lemma FieldsOfWordThen(w: string, rest: string)
    requires IsWord(w)
    requires rest == [] || IsSpace(rest[0])
    ensures Fields(w + rest) == [w] + Fields(rest)
  {
    var s := w + rest;
    assert s[0] == w[0];
    assert TrimLeft(s) == s;
    WordOfWord(w, rest);
    assert s[|w|..] == rest;
    assert Fields(s) == FieldsOfTrimmed(s);
  }

  lemma FieldsOfWord(w: string)
    requires IsWord(w)
    ensures Fields(w) == [w]
  {
    FieldsOfWordThen(w, []);
    assert w + [] == w;
  }

  /** Leading white space does not change the fields. */
  lemma FieldsSkipSpace(c: char, s: string)
    requires IsSpace(c)
    ensures Fields([c] + s) == Fields(s)
  {
    assert ([c] + s)[1..] == s;
    assert TrimLeft([c] + s) == TrimLeft(s);
  }

  /** Splitting a single-space join of words gives the words back. */
  lemma {:induction false} FieldsOfJoin(ws: seq<string>)
    requires forall x :: x in ws ==> IsWord(x)
    ensures Fields(Join(ws, " ")) == ws
  {
    if |ws| == 1 {
      assert ws[0] in ws;
      FieldsOfWord(ws[0]);
    } else if |ws| > 1 {
      assert ws[0] in ws;
      assert forall x :: x in ws[1..] ==> x in ws;
      FieldsOfJoin(ws[1..]);
      FieldsOfJoinStep(ws, Join(ws[1..], " "));
    }
  }

  /** One more word in front of the join is one more field in front. */
  lemma FieldsOfJoinStep(ws: seq<string>, j: string)
    requires |ws| > 1 && IsWord(ws[0])
    requires j == Join(ws[1..], " ") && Fields(j) == ws[1..]
    ensures Fields(Join(ws, " ")) == ws
  {
    HeadTail(ws);
    JoinCons(ws);
    FieldsOfWordSpaceThen(ws[0], j);
  }

  /** A non-empty sequence is its head followed by its tail. */
  lemma HeadTail<T>(s: seq<T>)
    requires s != []
    ensures [s[0]] + s[1..] == s
  {
  }

  /** A word, a space and more text: the word is the first field, followed by the fields of
      the rest. */
  lemma FieldsOfWordSpaceThen(w: string, j: string)
    requires IsWord(w)
    ensures Fields(w + ([' '] + j)) == [w] + Fields(j)
  {
    FieldsOfWordThen(w, [' '] + j);
    FieldsSkipSpace(' ', j);
  }

  /** A join of two or more words is the first word, a space, and the join of the others. */
  lemma JoinCons(ws: seq<string>)
    requires |ws| > 1
    ensures Join(ws, " ") == ws[0] + ([' '] + Join(ws[1..], " "))
  {
    assert Join(ws, " ") == ws[0] + " " + Join(ws[1..], " ");
  }

  /** Words with runs of white space around and between them: `gaps[0]` before the first word,
      `gaps[k]` between word `k - 1` and word `k`, and the last gap after the last word. */
  function Spaced(ws: seq<string>, gaps: seq<string>): string
    requires |gaps| == |ws| + 1
  {
    if ws == [] then gaps[0] else gaps[0] + (ws[0] + Spaced(ws[1..], gaps[1..]))
  }

  /** Gaps of white space only, with at least one character between two words. */
  predicate GoodGaps(ws: seq<string>, gaps: seq<string>) {
    |gaps| == |ws| + 1 &&
    (forall k :: 0 <= k < |gaps| ==> AllSpace(gaps[k])) &&
    (forall k :: 0 < k < |ws| ==> gaps[k] != [])
  }

  /** Leading white space does not change the fields. */
  lemma {:induction false} FieldsSkipPad(pad: string, s: string)
    requires AllSpace(pad)
    ensures Fields(pad + s) == Fields(s)
  {
    if pad != [] {
      assert pad + s == [pad[0]] + (pad[1..] + s);
      FieldsSkipSpace(pad[0], pad[1..] + s);
      FieldsSkipPad(pad[1..], s);
    } else {
      assert pad + s == s;
    }
  }

  /** Words spaced out by any runs of white space, with any white space around them, split back
      into those words: `strings.Fields` drops the spacing however wide it is. */
  lemma {:induction false} FieldsOfSpaced(ws: seq<string>, gaps: seq<string>)
    requires forall k :: 0 <= k < |ws| ==> IsWord(ws[k])
    requires GoodGaps(ws, gaps)
    ensures Fields(Spaced(ws, gaps)) == ws
  {
    assert AllSpace(gaps[0]);
    if ws == [] {
      assert Spaced(ws, gaps) == gaps[0];
    } else {
      var rest := Spaced(ws[1..], gaps[1..]);
      assert GoodGaps(ws[1..], gaps[1..]) by {
        assert forall k :: 0 <= k < |gaps[1..]| ==> gaps[1..][k] == gaps[k + 1];
      }
      FieldsOfSpaced(ws[1..], gaps[1..]);
      SpacedStartsWithGap(ws[1..], gaps[1..]);
      FieldsSkipPad(gaps[0], ws[0] + rest);
      FieldsOfWordThen(ws[0], rest);
      HeadTail(ws);
    }
  }

  /** A spaced text starts with its first gap, or with the first word when that gap is empty. */
  lemma SpacedStartsWithGap(ws: seq<string>, gaps: seq<string>)
    requires |gaps| == |ws| + 1 && AllSpace(gaps[0])
    requires ws != [] ==> gaps[0] != []
    ensures var t := Spaced(ws, gaps); t == [] || IsSpace(t[0])
  {
    if ws != [] {
      assert Spaced(ws, gaps)[0] == gaps[0][0];
    }
  }

  /** Every string is its fields spaced out by white space, so `FieldsOfSpaced` describes
      `strings.Fields` on every input. */
  lemma {:induction false} FieldsDecompose(s: string) returns (gaps: seq<string>)
    ensures GoodGaps(Fields(s), gaps) && Spaced(Fields(s), gaps) == s
    ensures s != [] && IsSpace(s[0]) ==> gaps[0] != []
    decreases |s|
  {
    var t := TrimLeft(s);
    var pad := s[..|s| - |t|];
    LeftMargin(s, t);
    PadThen(s, t);
    FieldsSkipPad(pad, t);
    if t == [] {
      gaps := [s];
      assert pad == s;
      GoodGapsNoWords(s);
      assert Fields(s) == [];
    } else {
      var w, rest := FirstWord(t);
      var more := FieldsDecompose(rest);
      gaps := [pad] + more;
      SpacedCons(w, Fields(rest), pad, more);
      GoodGapsCons(w, Fields(rest), pad, more);
      assert Fields(s) == [w] + Fields(rest);
    }
  }

  /** `s` is the margin `TrimLeft` cuts off, then what it keeps. */
  lemma PadThen(s: string, t: string)
    requires |t| <= |s| && t == s[|s| - |t|..]
    ensures s == s[..|s| - |t|] + t
  {
  }

  /** A text that does not start with white space splits into its first word and the rest,
      which is empty or starts with white space; its fields are that word, then the fields of
      the rest. */
  lemma FirstWord(t: string) returns (w: string, rest: string)
    requires t != [] && !IsSpace(t[0])
    ensures t == w + rest && IsWord(w) && (rest == [] || IsSpace(rest[0]))
    ensures Fields(t) == [w] + Fields(rest) && |rest| < |t|
  {
    w := Word(t);
    rest := t[|w|..];
    assert t == w + rest;
    FieldsOfWordThen(w, rest);
  }

  /** Spacing out one more word in front. */
  lemma SpacedCons(w: string, ws: seq<string>, pad: string, more: seq<string>)
    requires |more| == |ws| + 1
    ensures Spaced([w] + ws, [pad] + more) == pad + (w + Spaced(ws, more))
  {
    assert ([w] + ws)[1..] == ws;
    assert ([pad] + more)[1..] == more;
  }

  /** With no words, the one gap is the whole text. */
  lemma GoodGapsNoWords(g: string)
    requires AllSpace(g)
    ensures GoodGaps([], [g])
  {
  }

  /** Gaps stay good when a word and a white-space gap are put in front, provided the old
      first gap separates the new word from the old first word. */
  lemma GoodGapsCons(w: string, ws: seq<string>, pad: string, more: seq<string>)
    requires AllSpace(pad) && GoodGaps(ws, more)
    requires ws != [] ==> more[0] != []
    ensures GoodGaps([w] + ws, [pad] + more)
  {
    var gaps := [pad] + more;
    assert forall k :: 0 < k < |gaps| ==> gaps[k] == more[k - 1];
  }

  /** The index of the first occurrence of `c` in `s`, if any. */
  function IndexOf(s: string, c: char): (r: Option<nat>)
    ensures r.None? ==> c !in s
    ensures r.Some? ==> r.value < |s| && s[r.value] == c && c !in s[..r.value]
  {
    if s == [] then None
    else if s[0] == c then Some(0)
    else match IndexOf(s[1..], c)
      case None => None
      case Some(i) => assert s[..i + 1] == [s[0]] + s[1..][..i]; Some(i + 1)
  }

  /** `strings.Split` with a one-character separator: the pieces between separators, with the
      empty pieces kept, so that joining them back with the separator gives `s`. */
  function Split(s: string, sep: char): (r: seq<string>)
    ensures |r| >= 1
    ensures forall k :: 0 <= k < |r| ==> sep !in r[k]
    ensures Join(r, [sep]) == s
    decreases |s|
  {
    match IndexOf(s, sep)
    case None => [s]
    case Some(i) =>
      var rest := Split(s[i + 1..], sep);
      var r := [s[..i]] + rest;
      assert r[1..] == rest;
      assert s == s[..i] + [sep] + s[i + 1..];
      r
  }

  type byte = x: int | 0 <= x < 256

  /** The UTF-8 encoding of one code point; only an ASCII character has a first byte below 0x80. */
  function RuneBytes(c: char): (b: seq<byte>)
    ensures 1 <= |b| <= 4
    ensures (b[0] < 0x80) <==> (c as int) < 0x80
    ensures (c as int) < 0x80 ==> b == [c as int]
  {
    var n := c as int;
    if n < 0x80 then [n]
    else if n < 0x800 then [0xC0 + n / 64, 0x80 + n % 64]
    else if n < 0x10000 then [0xE0 + n / 4096, 0x80 + n / 64 % 64, 0x80 + n % 64]
    else [0xF0 + n / 262144, 0x80 + n / 4096 % 64, 0x80 + n / 64 % 64, 0x80 + n % 64]
  }

  /** `[]byte(s)`: the UTF-8 encoding of `s`; `len(s)` in Go is its length. */
  function Utf8(s: string): (b: seq<byte>)
    ensures |b| >= |s|
    ensures s != [] ==> b[..1] == RuneBytes(s[0])[..1]
  {
    if s == [] then [] else RuneBytes(s[0]) + Utf8(s[1..])
  }
}
