/** Reading a batch of tree topologies and their leaf inputs (`SSTReader`).
    Each instance is one non-empty line of the input file (whitespace-separated
    integers) paired with the next line of the graph file (its parent array,
    ending with the root's -1). Instance i is written at offset
    i * SST_MAX_DEPENDENCY of two flat buffers that were first reset to -1
    (graph) and 0 (input). Files are given as sequences of lines. */
module TopologyReader {
  import opened Wrappers
  import opened Arithmetic

  /** Initial values of `SST_MAX_LEN` and `SST_MAX_DEPENDENCY`. */
  const SstMaxLen: nat := 56
  const SstMaxDependency: nat := 111

  /** The gflags validator: the flag's first character is not NUL (for an
      empty string, `value[0]` is the terminating NUL). */
  function IsNonEmptyMessage(value: string): (r: bool)
    ensures r ==> value != []
    ensures (forall i :: 0 <= i < |value| ==> value[i] != '\0') ==> (r <==> value != [])
  {
    |value| > 0 && value[0] != '\0'
  }

  // ---------------------------------------------------------------------------
  // `stringstream >> int`

  /** The C locale's `isspace`. */
  predicate IsSpace(c: char) {
    c == ' ' || ('\t' <= c <= '\r')
  }

  predicate IsDigit(c: char) {
    '0' <= c <= '9'
  }

  predicate AllDigits(s: string) {
    forall i :: 0 <= i < |s| ==> IsDigit(s[i])
  }

  /** The first position at or after `i` that does not hold white space. */
  function SkipSpace(s: string, i: nat): (j: nat)
    requires i <= |s|
    ensures i <= j <= |s|
    decreases |s| - i
  {
    if i < |s| && IsSpace(s[i]) then SkipSpace(s, i + 1) else i
  }

  /** The end of the run of decimal digits starting at `i`. */
  function DigitEnd(s: string, i: nat): (j: nat)
    requires i <= |s|
    ensures i <= j <= |s|
    decreases |s| - i
  {
    if i < |s| && IsDigit(s[i]) then DigitEnd(s, i + 1) else i
  }

  function DigitValue(c: char): int {
    c as int - '0' as int
  }

  /** The value of the digits `s[i..j]`. */
  function Decimal(s: string, i: nat, j: nat): int
    requires i <= j <= |s|
    decreases j - i
  {
    if j == i then 0 else 10 * Decimal(s, i, j - 1) + DigitValue(s[j - 1])
  }

  /** One extraction `stream >> val` from position `i`: skip white space,
      read an optional sign and at least one digit; the result holds the
      value and the position after it. `None` when no integer can be read
      (the stream fails and the reading loop ends). */
  function NextInt(s: string, i: nat): (r: Option<(int, nat)>)
    requires i <= |s|
    ensures r.Some? ==> i < r.value.1 <= |s|
  {
    var t := SkipSpace(s, i);
    if t < |s| && (s[t] == '-' || s[t] == '+') then
      var e := DigitEnd(s, t + 1);
      if e == t + 1 then None
      else
        var magnitude := Decimal(s, t + 1, e);
        Some((if s[t] == '-' then -magnitude else magnitude, e))
    else
      var e := DigitEnd(s, t);
      if e == t then None else Some((Decimal(s, t, e), e))
  }

  /** The integers `while (stream >> val)` reads from position `i` on. */
  function ParseFrom(s: string, i: nat): (r: seq<int>)
    requires i <= |s|
    ensures |r| <= |s| - i
    decreases |s| - i
  {
    var next := NextInt(s, i);
    if next.None? then [] else [next.value.0] + ParseFrom(s, next.value.1)
  }

  /** The integers read from a whole line, in order. */
  function ParseInts(line: string): (r: seq<int>)
    ensures |r| <= |line|
  {
    ParseFrom(line, 0)
  }

  // ---------------------------------------------------------------------------
  // Writing integers as text, the inverse of `ParseInts`

  function DigitChar(d: nat): (c: char)
    requires d < 10
    ensures IsDigit(c) && DigitValue(c) == d
  {
    ('0' as int + d) as char
  }

  function NatDigits(n: nat): (ds: string)
    ensures ds != []
    decreases n
  {
    if n < 10 then [DigitChar(n)] else NatDigits(n / 10) + [DigitChar(n % 10)]
  }

  lemma {:induction false} NatDigitsAreDigits(n: nat)
    ensures AllDigits(NatDigits(n))
    decreases n
  {
    if n >= 10 {
      NatDigitsAreDigits(n / 10);
    }
  }

  function IntText(v: int): string {
    if v < 0 then "-" + NatDigits(-v) else NatDigits(v)
  }

  /** The text of each integer of `xs`. */
  function Texts(xs: seq<int>): (ts: seq<string>)
    ensures |ts| == |xs|
  {
    if xs == [] then [] else [IntText(xs[0])] + Texts(xs[1..])
  }

  /** Tokens, each followed by one space. */
  function Join(ts: seq<string>): string {
    if ts == [] then "" else ts[0] + (" " + Join(ts[1..]))
  }

  /** A line holding `xs`, each followed by one space. */
  function Format(xs: seq<int>): string {
    Join(Texts(xs))
  }

  lemma {:induction false} DecimalOfDigits(s: string, i: nat, n: nat)
    requires i + |NatDigits(n)| <= |s| && s[i..i + |NatDigits(n)|] == NatDigits(n)
    ensures Decimal(s, i, i + |NatDigits(n)|) == n
    decreases n
  {
    var ds := NatDigits(n);
    if n >= 10 {
      var front := NatDigits(n / 10);
      assert ds == front + [DigitChar(n % 10)];
      assert s[i..i + |front|] == ds[..|front|] == front;
      assert s[i + |front|] == ds[|front|];
      DecimalOfDigits(s, i, n / 10);
    } else {
      assert s[i] == ds[0];
    }
  }

  lemma {:induction false} DigitEndOver(s: string, i: nat, ds: string)
    requires AllDigits(ds) && i + |ds| <= |s| && s[i..i + |ds|] == ds
    requires i + |ds| == |s| || !IsDigit(s[i + |ds|])
    ensures DigitEnd(s, i) == i + |ds|
    decreases |ds|
  {
    if ds != [] {
      assert s[i] == ds[0];
      assert s[i + 1..i + |ds|] == ds[1..];
      DigitEndOver(s, i + 1, ds[1..]);
    }
  }

  lemma ScanNat(s: string, i: nat, n: nat)
    requires i + |NatDigits(n)| <= |s| && s[i..i + |NatDigits(n)|] == NatDigits(n)
    requires i + |NatDigits(n)| == |s| || !IsDigit(s[i + |NatDigits(n)|])
    ensures DigitEnd(s, i) == i + |NatDigits(n)|
    ensures Decimal(s, i, i + |NatDigits(n)|) == n
  {
    NatDigitsAreDigits(n);
    DigitEndOver(s, i, NatDigits(n));
    DecimalOfDigits(s, i, n);
  }

  lemma NextIntOfNegative(s: string, i: nat, v: int)
    requires v < 0
    requires i + |IntText(v)| <= |s| && s[i..i + |IntText(v)|] == IntText(v)
    requires i + |IntText(v)| == |s| || !IsDigit(s[i + |IntText(v)|])
    ensures NextInt(s, i) == Some((v, i + |IntText(v)|))
  {
    var ds := NatDigits(-v);
    assert s[i] == '-' && s[i + 1..i + 1 + |ds|] == ds by {
      assert IntText(v) == "-" + ds;
      assert s[i] == IntText(v)[0];
      assert s[i + 1..i + |IntText(v)|] == IntText(v)[1..];
    }
    ScanNat(s, i + 1, -v);
  }

  lemma NextIntOfNonNegative(s: string, i: nat, v: int)
    requires v >= 0
    requires i + |IntText(v)| <= |s| && s[i..i + |IntText(v)|] == IntText(v)
    requires i + |IntText(v)| == |s| || !IsDigit(s[i + |IntText(v)|])
    ensures NextInt(s, i) == Some((v, i + |IntText(v)|))
  {
    assert s[i] == NatDigits(v)[0];
    ScanNat(s, i, v);
  }

  /** Extraction reads back the integer `IntText` wrote and stops right after it. */
  lemma NextIntOfText(s: string, i: nat, v: int)
    requires i + |IntText(v)| <= |s| && s[i..i + |IntText(v)|] == IntText(v)
    requires i + |IntText(v)| == |s| || !IsDigit(s[i + |IntText(v)|])
    ensures NextInt(s, i) == Some((v, i + |IntText(v)|))
  {
    if v < 0 {
      NextIntOfNegative(s, i, v);
    } else {
      NextIntOfNonNegative(s, i, v);
    }
  }

  /** A white-space character changes nothing for the next extraction. */
  lemma NextIntAfterSpace(s: string, i: nat)
    requires i < |s| && IsSpace(s[i])
    ensures NextInt(s, i) == NextInt(s, i + 1)
  {
    assert SkipSpace(s, i) == SkipSpace(s, i + 1);
  }

  lemma ParseFromNext(s: string, i: nat)
    requires i <= |s| && NextInt(s, i).Some?
    ensures ParseFrom(s, i) == [NextInt(s, i).value.0] + ParseFrom(s, NextInt(s, i).value.1)
  {
  }

  /** One more extraction while reading `vals` from `i` on. */
  lemma ParseStep(s: string, i: nat, vals: seq<int>, idx: nat)
    requires i <= |s| && idx <= |vals| && ParseFrom(s, i) == vals[idx..]
    ensures NextInt(s, i).Some? <==> idx < |vals|
    ensures NextInt(s, i).Some? ==>
      && vals[idx] == NextInt(s, i).value.0
      && ParseFrom(s, NextInt(s, i).value.1) == vals[idx + 1..]
  {
    if NextInt(s, i).Some? {
      ParseFromNext(s, i);
      assert vals[idx..][0] == vals[idx] && vals[idx..][1..] == vals[idx + 1..];
    }
  }

  /** An integer written at `i` and followed by a space is read, and reading
      goes on after the space. */
  lemma ParseFromText(s: string, i: nat, v: int)
    requires i + |IntText(v)| < |s| && s[i..i + |IntText(v)|] == IntText(v)
    requires s[i + |IntText(v)|] == ' '
    ensures ParseFrom(s, i) == [v] + ParseFrom(s, i + |IntText(v)| + 1)
  {
    var k := i + |IntText(v)|;
    NextIntOfText(s, i, v);
    ParseFromNext(s, i);
    NextIntAfterSpace(s, k);
  }

  lemma ParseFromEnd(s: string)
    ensures ParseFrom(s, |s|) == []
  {
    assert NextInt(s, |s|) == None;
  }

  /** The tokens `ts` are written at `i`, each followed by one space, up to
      the end of `s`. */
  ghost predicate Written(s: string, i: nat, ts: seq<string>)
    requires i <= |s|
    decreases |ts|
  {
    if ts == [] then i == |s|
    else
      var k := i + |ts[0]|;
      k < |s| && s[i..k] == ts[0] && s[k] == ' ' && Written(s, k + 1, ts[1..])
  }

  lemma SplitToken(s: string, i: nat, a: string, b: string)
    requires i <= |s| && s[i..] == a + (" " + b)
    ensures i + |a| < |s| && s[i..i + |a|] == a && s[i + |a|] == ' ' && s[i + |a| + 1..] == b
  {
    assert s[i..][..|a|] == a;
    assert s[i..][|a|] == ' ';
    assert s[i..][|a| + 1..] == b;
  }

  lemma {:induction false} JoinWritten(s: string, i: nat, ts: seq<string>)
    requires i <= |s| && s[i..] == Join(ts)
    ensures Written(s, i, ts)
    decreases |ts|
  {
    if ts != [] {
      SplitToken(s, i, ts[0], Join(ts[1..]));
      JoinWritten(s, i + |ts[0]| + 1, ts[1..]);
    }
  }

  lemma TextsHead(xs: seq<int>)
    requires xs != []
    ensures Texts(xs)[0] == IntText(xs[0]) && Texts(xs)[1..] == Texts(xs[1..])
  {
    assert Texts(xs) == [IntText(xs[0])] + Texts(xs[1..]);
  }

  /** Reading written integers gives back exactly those integers. */
  lemma {:induction false} ParseFromWritten(s: string, i: nat, xs: seq<int>)
    requires i <= |s| && Written(s, i, Texts(xs))
    ensures ParseFrom(s, i) == xs
    decreases |xs|
  {
    if xs == [] {
      ParseFromEnd(s);
    } else {
      TextsHead(xs);
      ParseFromText(s, i, xs[0]);
      ParseFromWritten(s, i + |IntText(xs[0])| + 1, xs[1..]);
      assert xs == [xs[0]] + xs[1..];
    }
  }

  /** Reading a formatted line gives back exactly the integers written. */
  lemma ParseFormat(xs: seq<int>)
    ensures ParseInts(Format(xs)) == xs
  {
    var line := Format(xs);
    assert line[0..] == line;
    JoinWritten(line, 0, Texts(xs));
    ParseFromWritten(line, 0, xs);
  }

  /** Tokens separated by single spaces, with nothing after the last one. */
  function Separated(ts: seq<string>): string
    decreases |ts|
  {
    if ts == [] then ""
    else if |ts| == 1 then ts[0]
    else ts[0] + (" " + Separated(ts[1..]))
  }

  /** A line holding `xs` separated by single spaces, without a trailing space. */
  function FormatSeparated(xs: seq<int>): string {
    Separated(Texts(xs))
  }

  /** The tokens `ts` are written at `i`, separated by single spaces, and the
      last one ends the string. */
  ghost predicate WrittenSeparated(s: string, i: nat, ts: seq<string>)
    requires i <= |s|
    decreases |ts|
  {
    if ts == [] then i == |s|
    else if |ts| == 1 then s[i..] == ts[0]
    else
      var k := i + |ts[0]|;
      k < |s| && s[i..k] == ts[0] && s[k] == ' ' && WrittenSeparated(s, k + 1, ts[1..])
  }

  lemma {:induction false} SeparatedWritten(s: string, i: nat, ts: seq<string>)
    requires i <= |s| && s[i..] == Separated(ts)
    ensures WrittenSeparated(s, i, ts)
    decreases |ts|
  {
    if |ts| > 1 {
      SplitToken(s, i, ts[0], Separated(ts[1..]));
      SeparatedWritten(s, i + |ts[0]| + 1, ts[1..]);
    }
  }

  /** An integer written at `i` up to the end of `s` is the last one read. */
  lemma ParseFromLastText(s: string, i: nat, v: int)
    requires i <= |s| && s[i..] == IntText(v)
    ensures ParseFrom(s, i) == [v]
  {
    assert s[i..i + |IntText(v)|] == s[i..];
    NextIntOfText(s, i, v);
    ParseFromNext(s, i);
    ParseFromEnd(s);
  }

  /** Reading integers written with single spaces between them gives back
      exactly those integers. */
  lemma {:induction false} ParseFromSeparated(s: string, i: nat, xs: seq<int>)
    requires i <= |s| && WrittenSeparated(s, i, Texts(xs))
    ensures ParseFrom(s, i) == xs
    decreases |xs|
  {
    if xs == [] {
      ParseFromEnd(s);
    } else if |xs| == 1 {
      TextsHead(xs);
      ParseFromLastText(s, i, xs[0]);
    } else {
      TextsHead(xs);
      ParseFromText(s, i, xs[0]);
      ParseFromSeparated(s, i + |IntText(xs[0])| + 1, xs[1..]);
      assert xs == [xs[0]] + xs[1..];
    }
  }

  /** Reading a line whose integers are separated by single spaces, with no
      trailing space, gives back exactly those integers. */
  lemma ParseFormatSeparated(xs: seq<int>)
    ensures ParseInts(FormatSeparated(xs)) == xs
  {
    var line := FormatSeparated(xs);
    assert line[0..] == line;
    SeparatedWritten(line, 0, Texts(xs));
    ParseFromSeparated(line, 0, xs);
  }

  // ---------------------------------------------------------------------------
  // The padded, flattened batch layout

  function Fill<T>(n: nat, x: T): (r: seq<T>)
    ensures |r| == n && forall i :: 0 <= i < n ==> r[i] == x
  {
    seq(n, _ => x)
  }

  /** A row followed by padding up to width `w`. */
  function Pad<T>(row: seq<T>, w: nat, pad: T): (r: seq<T>)
    requires |row| <= w
    ensures |r| == w
  {
    row + Fill(w - |row|, pad)
  }

  predicate RowsFit<T>(rows: seq<seq<T>>, w: nat) {
    forall j :: 0 <= j < |rows| ==> |rows[j]| <= w
  }

  /** The first `n` rows laid out one after another, each padded to width `w`. */
  function Layout<T>(rows: seq<seq<T>>, n: nat, w: nat, pad: T): seq<T>
    requires n <= |rows| && RowsFit(rows, w)
    decreases n
  {
    if n == 0 then [] else Layout(rows, n - 1, w, pad) + Pad(rows[n - 1], w, pad)
  }

  lemma {:induction false} LayoutLength<T>(rows: seq<seq<T>>, n: nat, w: nat, pad: T)
    requires n <= |rows| && RowsFit(rows, w)
    ensures |Layout(rows, n, w, pad)| == n * w
    decreases n
  {
    if n > 0 {
      LayoutLength(rows, n - 1, w, pad);
      assert (n - 1) * w + w == n * w;
    }
  }

  /** Slot `t` of instance `j` holds the row's t-th value, or the padding
      beyond the row's end. */
  lemma {:induction false} LayoutAt<T>(rows: seq<seq<T>>, n: nat, w: nat, pad: T, j: nat, t: nat)
    requires n <= |rows| && RowsFit(rows, w)
    requires j < n && t < w
    ensures j * w + t < |Layout(rows, n, w, pad)|
    ensures Layout(rows, n, w, pad)[j * w + t] == if t < |rows[j]| then rows[j][t] else pad
    decreases n
  {
    LayoutLength(rows, n - 1, w, pad);
    LayoutLength(rows, n, w, pad);
    if j == n - 1 {
      assert Layout(rows, n, w, pad)[j * w + t] == Pad(rows[j], w, pad)[t];
    } else {
      MulMono(j + 1, n - 1, w);
      LayoutAt(rows, n - 1, w, pad, j, t);
    }
    MulMono(j + 1, n, w);
  }

  /** Writing a row over the padding right after the rows done so far. */
  lemma PlaceRow<T>(before: seq<T>, after: seq<T>, done: seq<T>, row: seq<T>, w: nat, pad: T)
    requires |row| <= w && |done| + w <= |before|
    requires before == done + Fill(|before| - |done|, pad)
    requires |after| == |before|
    requires after[..|done|] == before[..|done|]
    requires after[|done|..|done| + |row|] == row
    requires after[|done| + |row|..] == before[|done| + |row|..]
    ensures after == done + Pad(row, w, pad) + Fill(|before| - |done| - w, pad)
  {
    var rhs := done + Pad(row, w, pad) + Fill(|before| - |done| - w, pad);
    forall p | 0 <= p < |after|
      ensures after[p] == rhs[p]
    {
      if p < |done| {
        assert after[p] == after[..|done|][p];
      } else if p < |done| + |row| {
        assert after[p] == after[|done|..|done| + |row|][p - |done|];
      } else {
        assert after[p] == after[|done| + |row|..][p - |done| - |row|];
      }
    }
  }

  /** `a` holds the first `n` rows laid out with padding, then only padding. */
  ghost predicate Laid<T>(a: seq<T>, rows: seq<seq<T>>, n: nat, w: nat, pad: T) {
    && n <= |rows|
    && RowsFit(rows, w)
    && n * w <= |a|
    && a == Layout(rows, n, w, pad) + Fill(|a| - n * w, pad)
  }

  lemma PlaceNextRow<T>(before: seq<T>, after: seq<T>, rows: seq<seq<T>>, n: nat, w: nat, pad: T)
    requires Laid(before, rows, n, w, pad) && n < |rows| && (n + 1) * w <= |before|
    requires |after| == |before|
    requires after[..n * w] == before[..n * w]
    requires after[n * w..n * w + |rows[n]|] == rows[n]
    requires after[n * w + |rows[n]|..] == before[n * w + |rows[n]|..]
    ensures Laid(after, rows, n + 1, w, pad)
  {
    LayoutLength(rows, n, w, pad);
    assert n * w + w == (n + 1) * w;
    PlaceRow(before, after, Layout(rows, n, w, pad), rows[n], w, pad);
  }

  /** Position p below n * w is slot p % w of row p / w. */
  lemma SlotOf(p: nat, n: nat, w: nat)
    requires p < n * w
    ensures w > 0 && p / w < n && p % w < w && p == (p / w) * w + p % w
  {
    if p / w >= n {
      MulMono(n, p / w, w);
    }
  }

  /** What a laid-out buffer holds, slot by slot: row j's values at
      j * w onwards, padding after each row and after the last one. */
  lemma LaidAt<T>(a: seq<T>, rows: seq<seq<T>>, n: nat, w: nat, pad: T, p: nat)
    requires Laid(a, rows, n, w, pad) && p < |a|
    ensures p < n * w ==>
      var j, t := p / w, p % w;
      j < n && a[p] == if t < |rows[j]| then rows[j][t] else pad
    ensures p >= n * w ==> a[p] == pad
  {
    LayoutLength(rows, n, w, pad);
    if p < n * w {
      SlotOf(p, n, w);
      LayoutAt(rows, n, w, pad, p / w, p % w);
    }
  }

  /** The total length of the first `n` rows. */
  function TotalLength(rows: seq<seq<int>>, n: nat): nat
    requires n <= |rows|
    decreases n
  {
    if n == 0 then 0 else TotalLength(rows, n - 1) + |rows[n - 1]|
  }

  lemma TotalLengthNext(rows: seq<seq<int>>, n: nat)
    requires n < |rows|
    ensures TotalLength(rows, n + 1) == TotalLength(rows, n) + |rows[n]|
  {
  }

  /** The node count never exceeds the slots the batch occupies. */
  lemma {:induction false} TotalLengthBound(rows: seq<seq<int>>, n: nat, w: nat)
    requires n <= |rows| && RowsFit(rows, w)
    ensures TotalLength(rows, n) <= n * w
    decreases n
  {
    if n > 0 {
      TotalLengthBound(rows, n - 1, w);
      assert (n - 1) * w + w == n * w;
    }
  }

  function AsReals(xs: seq<int>): (r: seq<real>)
    ensures |r| == |xs| && forall i :: 0 <= i < |xs| ==> r[i] == xs[i] as real
  {
    seq(|xs|, i requires 0 <= i < |xs| => xs[i] as real)
  }

  // ---------------------------------------------------------------------------
  // Instances and the batch

  /** One instance: an input line and the graph line read right after it. */
  datatype Instance = Instance(input: string, graph: string)

  /** The instances the reading loop forms: empty input lines are skipped
      without consuming a graph line. Every instance pairs one of the input
      lines with one of the graph lines. */
  function Instances(inputLines: seq<string>, graphLines: seq<string>): (r: seq<Instance>)
    ensures forall j :: 0 <= j < |r| ==> r[j].input in inputLines && r[j].graph in graphLines
    decreases |inputLines|
  {
    if inputLines == [] then []
    else if inputLines[0] == [] then Instances(inputLines[1..], graphLines)
    else if graphLines == [] then []
    else [Instance(inputLines[0], graphLines[0])] + Instances(inputLines[1..], graphLines[1..])
  }

  /** Every instance has a non-empty input line, and each one consumes an
      input line and a graph line. */
  lemma {:induction false} InstancesOfLines(inputLines: seq<string>, graphLines: seq<string>)
    ensures |Instances(inputLines, graphLines)| <= |inputLines|
    ensures |Instances(inputLines, graphLines)| <= |graphLines|
    ensures forall j :: 0 <= j < |Instances(inputLines, graphLines)| ==>
              Instances(inputLines, graphLines)[j].input != []
    decreases |inputLines|
  {
    if inputLines != [] {
      if inputLines[0] == [] {
        InstancesOfLines(inputLines[1..], graphLines);
      } else if graphLines != [] {
        InstancesOfLines(inputLines[1..], graphLines[1..]);
      }
    }
  }

  function GraphRows(insts: seq<Instance>): (rows: seq<seq<int>>)
    ensures |rows| == |insts|
  {
    seq(|insts|, j requires 0 <= j < |insts| => ParseInts(insts[j].graph))
  }

  function InputRows(insts: seq<Instance>): (rows: seq<seq<real>>)
    ensures |rows| == |insts|
  {
    seq(|insts|, j requires 0 <= j < |insts| => AsReals(ParseInts(insts[j].input)))
  }

  /** What the caller must provide: enough instances, each with a non-empty
      parent array (the root check reads its last entry) and rows that fit
      the `maxDep` slots of their instance (the length checks run only after
      the rows were written). */
  predicate BatchAvailable(maxDep: nat, batchSize: nat,
                           inputLines: seq<string>, graphLines: seq<string>)
  {
    var insts := Instances(inputLines, graphLines);
    && |insts| >= batchSize
    && forall j :: 0 <= j < batchSize ==>
         && 1 <= |ParseInts(insts[j].graph)| <= maxDep
         && |ParseInts(insts[j].input)| <= maxDep
  }

  /** The first `batchSize` instances. */
  function Batch(batchSize: nat, inputLines: seq<string>, graphLines: seq<string>): seq<Instance>
    requires |Instances(inputLines, graphLines)| >= batchSize
  {
    Instances(inputLines, graphLines)[..batchSize]
  }

  predicate EndsWithRoot(row: seq<int>) {
    row != [] && row[|row| - 1] == -1
  }

  /** The checks `next_batch` makes on one instance: the parent array ends
      with the root and there are at most `maxLen` inputs. */
  predicate InstanceOk(maxLen: nat, inst: Instance) {
    EndsWithRoot(ParseInts(inst.graph)) && |ParseInts(inst.input)| <= maxLen
  }

  predicate BatchOk(maxLen: nat, batch: seq<Instance>) {
    forall j :: 0 <= j < |batch| ==> InstanceOk(maxLen, batch[j])
  }

  /** Reading the next input line (and, for a non-empty one, the next graph
      line) while instance i is still to come. */
  lemma NextLine(ins: seq<string>, gs: seq<string>, insts: seq<Instance>, i: nat)
    requires i < |insts| && Instances(ins, gs) == insts[i..]
    ensures ins != []
    ensures ins[0] == [] ==> Instances(ins[1..], gs) == insts[i..]
    ensures ins[0] != [] ==>
      && gs != []
      && insts[i] == Instance(ins[0], gs[0])
      && Instances(ins[1..], gs[1..]) == insts[i + 1..]
  {
    assert insts[i..] != [];
    assert insts[i..][0] == insts[i] && insts[i..][1..] == insts[i + 1..];
  }

  /** The checks of `InstanceOk`, stated on the parsed rows. */
  predicate RowsOk(maxLen: nat, graphRows: seq<seq<int>>, inputRows: seq<seq<real>>, n: nat)
    requires n <= |graphRows| && n <= |inputRows|
  {
    forall j :: 0 <= j < n ==> EndsWithRoot(graphRows[j]) && |inputRows[j]| <= maxLen
  }

  lemma BatchOkRows(maxLen: nat, batch: seq<Instance>)
    ensures BatchOk(maxLen, batch) <==> RowsOk(maxLen, GraphRows(batch), InputRows(batch), |batch|)
  {
    var gr, ir := GraphRows(batch), InputRows(batch);
    forall j | 0 <= j < |batch|
      ensures InstanceOk(maxLen, batch[j]) <==> EndsWithRoot(gr[j]) && |ir[j]| <= maxLen
    {
      assert gr[j] == ParseInts(batch[j].graph);
      assert |ir[j]| == |ParseInts(batch[j].input)|;
    }
  }

  /** What storing row i of an available batch relies on. */
  lemma BatchRow(maxDep: nat, batchSize: nat, inputLines: seq<string>, graphLines: seq<string>, i: nat)
    requires BatchAvailable(maxDep, batchSize, inputLines, graphLines) && i < batchSize
    ensures GraphRows(Batch(batchSize, inputLines, graphLines))[i] == ParseInts(Batch(batchSize, inputLines, graphLines)[i].graph)
    ensures InputRows(Batch(batchSize, inputLines, graphLines))[i] == AsReals(ParseInts(Batch(batchSize, inputLines, graphLines)[i].input))
    ensures GraphRows(Batch(batchSize, inputLines, graphLines))[i] != []
  {
  }

  /** Before the first instance: nothing is laid out or counted yet. */
  lemma ReadStart(maxLen: nat, maxDep: nat, batchSize: nat, inputLines: seq<string>, graphLines: seq<string>,
                  g: seq<int>, inp: seq<real>)
    requires BatchAvailable(maxDep, batchSize, inputLines, graphLines)
    requires g == Fill(|g|, -1) && inp == Fill(|inp|, 0.0)
    ensures var batch := Batch(batchSize, inputLines, graphLines);
      && RowsOk(maxLen, GraphRows(batch), InputRows(batch), 0)
      && Laid(g, GraphRows(batch), 0, maxDep, -1)
      && Laid(inp, InputRows(batch), 0, maxDep, 0.0)
      && TotalLength(GraphRows(batch), 0) == 0
  {
    var batch := Batch(batchSize, inputLines, graphLines);
    assert Layout(GraphRows(batch), 0, maxDep, -1) == [];
    assert Layout(InputRows(batch), 0, maxDep, 0.0) == [];
  }

  lemma BatchNotOk(maxLen: nat, batch: seq<Instance>, i: nat)
    requires i < |batch| && !InstanceOk(maxLen, batch[i])
    ensures !BatchOk(maxLen, batch)
  {
  }

  lemma RowsOkNext(maxLen: nat, graphRows: seq<seq<int>>, inputRows: seq<seq<real>>, i: nat)
    requires i < |graphRows| && i < |inputRows| && RowsOk(maxLen, graphRows, inputRows, i)
    requires EndsWithRoot(graphRows[i]) && |inputRows[i]| <= maxLen
    ensures RowsOk(maxLen, graphRows, inputRows, i + 1)
  {
  }


  // ---------------------------------------------------------------------------
  // The imperative reader

  /** `std::fill(a.begin(), a.end(), x)`. */
  method FillArray<T>(a: array<T>, x: T)
    modifies a
    ensures a[..] == Fill(a.Length, x)
  {
    var i := 0;
    while i < a.Length
      invariant 0 <= i <= a.Length
      invariant forall p :: 0 <= p < i ==> a[p] == x
    {
      a[i] := x;
      i := i + 1;
    }
  }

  /** `process_graph`: stores the parsed parent indices unchanged from
      `offset` on and fails unless the last one is -1 (the root). */
  method ProcessGraph(data: array<int>, offset: nat, line: string) returns (len: nat, ok: bool)
    requires ParseInts(line) != []
    requires offset + |ParseInts(line)| <= data.Length
    modifies data
    ensures len == |ParseInts(line)|
    ensures data[offset..offset + len] == ParseInts(line)
    ensures data[..offset] == old(data[..offset])
    ensures data[offset + len..] == old(data[offset + len..])
    ensures ok <==> EndsWithRoot(ParseInts(line))
  {
    hide NextInt;
    ghost var vals := ParseInts(line);
    var pos := 0;
    var next := NextInt(line, pos);
    var idx := 0;
    while next.Some?
      invariant pos <= |line| && next == NextInt(line, pos)
      invariant 0 <= idx <= |vals| && ParseFrom(line, pos) == vals[idx..]
      invariant forall k :: 0 <= k < idx ==> data[offset + k] == vals[k]
      invariant forall p :: 0 <= p < data.Length && !(offset <= p < offset + idx) ==> data[p] == old(data[p])
      decreases |line| - pos
    {
      var val := next.value.0;
      var after := next.value.1;
      ParseStep(line, pos, vals, idx);
      data[offset + idx] := val;
      idx := idx + 1;
      pos := after;
      next := NextInt(line, pos);
    }
    ParseStep(line, pos, vals, idx);
    len := idx;
    ok := data[offset + idx - 1] == -1;
    assert data[offset..offset + len] == vals;
  }

  /** `process_data`: stores the parsed values, as floats, from `offset` on. */
  method ProcessData(data: array<real>, offset: nat, line: string) returns (len: nat)
    requires offset + |ParseInts(line)| <= data.Length
    modifies data
    ensures len == |ParseInts(line)|
    ensures data[offset..offset + len] == AsReals(ParseInts(line))
    ensures data[..offset] == old(data[..offset])
    ensures data[offset + len..] == old(data[offset + len..])
  {
    hide NextInt;
    ghost var vals := ParseInts(line);
    ghost var want := AsReals(vals);
    var pos := 0;
    var next := NextInt(line, pos);
    var idx := 0;
    while next.Some?
      invariant pos <= |line| && next == NextInt(line, pos)
      invariant 0 <= idx <= |vals| && ParseFrom(line, pos) == vals[idx..]
      invariant forall k :: 0 <= k < idx ==> data[offset + k] == want[k]
      invariant forall p :: 0 <= p < data.Length && !(offset <= p < offset + idx) ==> data[p] == old(data[p])
      decreases |line| - pos
    {
      var val := next.value.0;
      var after := next.value.1;
      ParseStep(line, pos, vals, idx);
      data[offset + idx] := val as real;
      idx := idx + 1;
      pos := after;
      next := NextInt(line, pos);
    }
    ParseStep(line, pos, vals, idx);
    len := idx;
    assert data[offset..offset + len] == want;
  }

  /** The body of the reading loop for one instance, which becomes row i:
      the parent array and the inputs go to slot i of their buffers, each
      followed by its check. */
  method StoreInstance(maxLen: nat, maxDep: nat, inst: Instance, i: nat,
                       graph: array<int>, input: array<real>,
                       ghost graphRows: seq<seq<int>>, ghost inputRows: seq<seq<real>>, count: nat)
    returns (total: nat, ok: bool)
    requires i < |graphRows| && i < |inputRows|
    requires count == TotalLength(graphRows, i) && RowsOk(maxLen, graphRows, inputRows, i)
    requires graphRows[i] == ParseInts(inst.graph) && inputRows[i] == AsReals(ParseInts(inst.input))
    requires graphRows[i] != []
    requires (i + 1) * maxDep <= graph.Length && (i + 1) * maxDep <= input.Length
    requires Laid(graph[..], graphRows, i, maxDep, -1) && Laid(input[..], inputRows, i, maxDep, 0.0)
    modifies graph, input
    ensures ok <==> InstanceOk(maxLen, inst)
    ensures ok ==> total == TotalLength(graphRows, i + 1) && RowsOk(maxLen, graphRows, inputRows, i + 1)
    ensures ok ==> Laid(graph[..], graphRows, i + 1, maxDep, -1)
    ensures ok ==> Laid(input[..], inputRows, i + 1, maxDep, 0.0)
  {
    hide ParseInts;
    var offset := i * maxDep;
    assert (i + 1) * maxDep == offset + maxDep;
    ghost var graphBefore := graph[..];
    var len, rootOk := ProcessGraph(graph, offset, inst.graph);
    if !rootOk {
      total, ok := count, false;
      return;
    }
    PlaceNextRow(graphBefore, graph[..], graphRows, i, maxDep, -1);
    ghost var inputBefore := input[..];
    var inputLen := ProcessData(input, offset, inst.input);
    PlaceNextRow(inputBefore, input[..], inputRows, i, maxDep, 0.0);
    ok := inputLen <= maxLen;
    if ok {
      RowsOkNext(maxLen, graphRows, inputRows, i);
      TotalLengthNext(graphRows, i);
    }
    total := count + len;
  }

  /** The reading loop of `next_batch`, on buffers already reset. */
  method ReadInstances(maxLen: nat, maxDep: nat, batchSize: nat,
                       inputLines: seq<string>, graphLines: seq<string>,
                       graph: array<int>, input: array<real>)
    returns (numNodes: nat, ok: bool)
    requires BatchAvailable(maxDep, batchSize, inputLines, graphLines)
    requires batchSize * maxDep <= graph.Length && batchSize * maxDep <= input.Length
    requires graph[..] == Fill(graph.Length, -1) && input[..] == Fill(input.Length, 0.0)
    modifies graph, input
    ensures ok <==> BatchOk(maxLen, Batch(batchSize, inputLines, graphLines))
    ensures ok ==> Laid(graph[..], GraphRows(Batch(batchSize, inputLines, graphLines)), batchSize, maxDep, -1)
    ensures ok ==> Laid(input[..], InputRows(Batch(batchSize, inputLines, graphLines)), batchSize, maxDep, 0.0)
    ensures ok ==> numNodes == TotalLength(GraphRows(Batch(batchSize, inputLines, graphLines)), batchSize)
  {
    hide ParseInts, Laid, RowsOk, TotalLength, Instances, GraphRows, InputRows, BatchOk, InstanceOk;
    ghost var insts := Instances(inputLines, graphLines);
    ghost var batch := Batch(batchSize, inputLines, graphLines);
    ghost var gr := GraphRows(batch);
    ghost var ir := InputRows(batch);
    ReadStart(maxLen, maxDep, batchSize, inputLines, graphLines, graph[..], input[..]);
    assert insts[0..] == insts;
    var ins, gs := inputLines, graphLines;
    var i := 0;
    numNodes := 0;
    while i < batchSize
      invariant 0 <= i <= batchSize
      invariant Instances(ins, gs) == insts[i..]
      invariant RowsOk(maxLen, gr, ir, i)
      invariant Laid(graph[..], gr, i, maxDep, -1) && Laid(input[..], ir, i, maxDep, 0.0)
      invariant numNodes == TotalLength(gr, i)
      decreases |ins|
    {
      NextLine(ins, gs, insts, i);
      var inputStr := ins[0];
      ins := ins[1..];
      if |inputStr| > 0 {
        var graphStr := gs[0];
        gs := gs[1..];
        var inst := Instance(inputStr, graphStr);
        assert batch[i] == inst;
        BatchRow(maxDep, batchSize, inputLines, graphLines, i);
        MulMono(i + 1, batchSize, maxDep);
        var instOk;
        numNodes, instOk := StoreInstance(maxLen, maxDep, inst, i, graph, input, gr, ir, numNodes);
        if !instOk {
          BatchNotOk(maxLen, batch, i);
          ok := false;
          return;
        }
        i := i + 1;
      }
    }
    BatchOkRows(maxLen, batch);
    ok := true;
  }

  /** `next_batch`: resets both buffers (inputs to 0, parents to -1), then
      reads instances until `batchSize` of them are stored, instance i at
      offset i * maxDep. `ok` is false when one of its checks fails (the
      process aborts there); otherwise the buffers hold the padded layout of
      the batch and `numNodes` the total number of tree nodes. */
  method NextBatch(maxLen: nat, maxDep: nat, batchSize: nat,
                   inputLines: seq<string>, graphLines: seq<string>,
                   graph: array<int>, input: array<real>)
    returns (numNodes: nat, ok: bool)
    requires BatchAvailable(maxDep, batchSize, inputLines, graphLines)
    requires batchSize * maxDep <= graph.Length && batchSize * maxDep <= input.Length
    modifies graph, input
    ensures ok <==> BatchOk(maxLen, Batch(batchSize, inputLines, graphLines))
    ensures ok ==> Laid(graph[..], GraphRows(Batch(batchSize, inputLines, graphLines)), batchSize, maxDep, -1)
    ensures ok ==> Laid(input[..], InputRows(Batch(batchSize, inputLines, graphLines)), batchSize, maxDep, 0.0)
    ensures ok ==> numNodes == TotalLength(GraphRows(Batch(batchSize, inputLines, graphLines)), batchSize)
  {
    FillArray(input, 0.0);
    FillArray(graph, -1);
    numNodes, ok := ReadInstances(maxLen, maxDep, batchSize, inputLines, graphLines, graph, input);
  }
}
