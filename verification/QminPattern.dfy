// The post-processing of a server log: from the joined log lines to the pattern notation of depth
// and type, with estimates of the two limits of RFC 9156, section 2.3.
module QminPattern {
  import opened Text
  import opened QminName
  import opened QminLog
  import Arith
  import opened Wrappers

  // Fatal: the program stops, with a message or on an index out of range.
  datatype Verdict = Fatal | Verdict(qmin: bool, pattern: string, max: int, min: int)

  function BaseLabels(baseURL: string): nat
  {
    if HasSuffix(baseURL, ".") then Count(baseURL, '.') else Count(baseURL, '.') + 1
  }

  // The loop's variables after some of the parts, or the failure of one of them.
  datatype Scan = Broken | Scan(min: int, bounded: bool, text: string)

  const START := Scan(0, false, "")

  function ReadPart(s: Scan, part: string, base: nat): Scan
  {
    if s.Broken? then Broken
    else
      var single := !s.bounded && Count(part, '.') == 0;
      var min := if single then s.min + 1 else s.min;
      var split1 := Split(part, '_');
      var split2 := Split(split1[0], '.');
      if |split2| == 1 && '-' in split2[0] then
        if |split1| < 2 then Broken else Scan(min, !single, IntText(1 + base) + split1[1])
      else
        var stage := Atoi(split2[0]);
        if stage.None? || |split1| < 2 then Broken
        else Scan(min, !single, IntText(Arith.Wrap64(stage.value + 1 + base)) + split1[1] + "-" + s.text)
  }

  // The parts are read from the last to the first.
  function ReadParts(parts: seq<string>, base: nat): Scan
  {
    if parts == [] then START else ReadPart(ReadParts(parts[1..], base), parts[0], base)
  }

  function Analyzed(pattern: string, baseURL: string): Verdict
  {
    var base := BaseLabels(baseURL);
    if '|' !in pattern then
      if '.' !in pattern then Verdict(false, pattern, 0, 0)
      else
        var split := Split(pattern, '_');
        if |split| < 2 then Fatal else Verdict(false, IntText(Count(pattern, '.') + 1 + base) + split[1], 1, 1)
    else
      var s := ReadParts(Split(pattern, '|'), base);
      if s.Broken? then Fatal else Verdict(true, s.text, Count(pattern, '|') + 1, s.min)
  }

  function Reversed(parts: seq<string>): (r: seq<string>)
    ensures |r| == |parts|
    ensures forall i :: 0 <= i < |r| ==> r[i] == parts[|parts| - 1 - i]
  {
    seq(|parts|, i requires 0 <= i < |parts| => parts[|parts| - 1 - i])
  }

  method AnalyzePattern(pattern: string, baseURL: string) returns (v: Verdict)
    ensures v == Analyzed(pattern, baseURL)
  {
    hide Split, IntText, Atoi, Count, HasSuffix;
    var base := Count(baseURL, '.');
    if !HasSuffix(baseURL, ".") {
      base := base + 1;
    }
    assert base == BaseLabels(baseURL);
    if '|' !in pattern {
      if '.' !in pattern {
        return Verdict(false, pattern, 0, 0);
      }
      var split := Split(pattern, '_');
      if |split| < 2 {
        return Fatal;
      }
      return Verdict(false, IntText(Count(pattern, '.') + 1 + base) + split[1], 1, 1);
    }
    var text, max, min, bounded := "", Count(pattern, '|') + 1, 0, false;
    var parts := Split(pattern, '|');
    var reversed := Reversed(parts);
    for i := 0 to |reversed|
      invariant ReadParts(parts[|parts| - i..], base) == Scan(min, bounded, text)
    {
      var part := reversed[i];
      ghost var rest := parts[|parts| - i - 1..];
      assert rest[1..] == parts[|parts| - i..] && rest[0] == part;
      if !bounded && Count(part, '.') == 0 {
        min := min + 1;
      } else {
        bounded := true;
      }
      var split1 := Split(part, '_');
      var split2 := Split(split1[0], '.');
      if |split2| == 1 && '-' in split2[0] {
        if |split1| < 2 {
          BrokenStays(parts, |parts| - i - 1, base);
          return Fatal;
        }
        text := IntText(1 + base) + split1[1];
      } else {
        var stage := Atoi(split2[0]);
        if stage.None? || |split1| < 2 {
          BrokenStays(parts, |parts| - i - 1, base);
          return Fatal;
        }
        text := IntText(Arith.Wrap64(stage.value + 1 + base)) + split1[1] + "-" + text;
      }
    }
    assert parts[|parts| - |parts|..] == parts;
    return Verdict(true, text, max, min);
  }

  lemma {:induction false} BrokenStays(parts: seq<string>, i: nat, base: nat)
    requires i <= |parts| && ReadParts(parts[i..], base).Broken?
    ensures ReadParts(parts, base).Broken?
    decreases |parts|
  {
    hide ReadPart;
    if i == 0 {
      assert parts[0..] == parts;
    } else {
      assert parts[1..][i - 1..] == parts[i..];
      BrokenStays(parts[1..], i - 1, base);
      BrokenIn(parts, base);
    }
  }

  lemma BrokenIn(parts: seq<string>, base: nat)
    requires parts != [] && ReadParts(parts[1..], base).Broken?
    ensures ReadParts(parts, base).Broken?
  {
  }

  // ---------- what it says about a log ----------

  function Shown(e: Entry, base: nat): string
  {
    Itoa(e.depth + base) + e.qtype
  }

  // Depth and type of every log line, from the deepest to the shallowest. A log that does not begin
  // at the id label alone ends in a dash.
  function Printed(ls: seq<Entry>, base: nat): string
  {
    if ls == [] then ""
    else if |ls| == 1 && ls[0].depth == 1 then Shown(ls[0], base)
    else Shown(ls[|ls| - 1], base) + "-" + Printed(ls[..|ls| - 1], base)
  }

  // How many lines at the start grow the name by one label each.
  function Singles(ms: seq<Entry>): (n: nat)
    requires Rising(ms)
    ensures n <= |ms|
    ensures forall i :: 0 <= i < n ==> ms[i].depth == i + 1
    ensures n < |ms| ==> ms[n].depth != n + 1
  {
    if ms == [] then 0
    else
      var n := Singles(ms[..|ms| - 1]);
      if n == |ms| - 1 && ms[n].depth == n + 1 then n + 1 else n
  }

  ghost predicate PlainType(t: string)
  {
    Free(t, '_') && Free(t, '|') && Free(t, '.') && Free(t, ',')
  }

  ghost predicate PlainTypes(ms: seq<Entry>)
  {
    forall i :: 0 <= i < |ms| ==> PlainType(ms[i].qtype)
  }

  lemma LinePart(p: string, t: string)
    requires Free(p, '_') && PlainType(t)
    ensures Split(p + "_" + t, '_') == [p, t]
    ensures Count(p + "_" + t, '.') == |Split(p, '.')| - 1
  {
    SplitAt(p, '_', t);
    SplitFree(t, '_');
    CountConcat(p + "_", t, '.');
    CountConcat(p, "_", '.');
    CountFree(t, '.');
    CountFree("_", '.');
    CountSplit(p, '.');
  }

  lemma PieceHead(k: nat, m: nat, id: string)
    requires k < m && IdLabel(id)
    ensures var parts := Split(Piece(k, m, id), '.');
      && |parts| == m - k
      && parts[0] == (if m == 1 then id else Itoa(m - 1))
      && ('-' in parts[0] <==> m == 1)
  {
    PieceLabels(k, m, id);
    if m > 1 {
      DigitsFree(Itoa(m - 1), '-');
    }
  }

  lemma ReadLine(s: Scan, k: nat, e: Entry, id: string, base: nat)
    requires s.Scan? && k < e.depth && e.depth + base <= MAX_INT && IdLabel(id) && PlainType(e.qtype)
    ensures ReadPart(s, Piece(k, e.depth, id) + "_" + e.qtype, base)
      == Scan(if !s.bounded && e.depth == k + 1 then s.min + 1 else s.min, s.bounded || e.depth != k + 1,
              if e.depth == 1 then Shown(e, base) else Shown(e, base) + "-" + s.text)
  {
    hide Split, Count, Itoa, Piece, Atoi, PlainType;
    PieceFree(k, e.depth, id, '_');
    LinePart(Piece(k, e.depth, id), e.qtype);
    PieceHead(k, e.depth, id);
    AtoiItoa(e.depth - 1);
  }

  lemma ReadExtra(s: Scan, d: nat, base: nat)
    requires s.Scan? && d >= 1 && d + base <= MAX_INT
    ensures ReadPart(s, Extra(d), base)
      == Scan(if !s.bounded then s.min + 1 else s.min, s.bounded, Shown(Entry(d, "TXT"), base) + "-" + s.text)
  {
    hide Split, Count, Itoa, Atoi;
    var p := Itoa(d - 1);
    DigitsFree(p, '_');
    DigitsFree(p, '.');
    DigitsFree(p, '-');
    assert p + "_" + "TXT" == Extra(d);
    LinePart(p, "TXT");
    SplitFree(p, '.');
    AtoiItoa(d - 1);
  }

  lemma ReadNext(line: string, rest: seq<string>, base: nat)
    ensures ReadParts([line] + rest, base) == ReadPart(ReadParts(rest, base), line, base)
  {
    hide ReadPart;
    assert ([line] + rest)[1..] == rest;
  }

  lemma SinglesNext(ms: seq<Entry>)
    requires Rising(ms) && ms != []
    ensures var before := ms[..|ms| - 1];
      && Rising(before) && Last(before).depth < Last(ms).depth
      && Singles(ms) == if Singles(before) == |before| && Last(ms).depth == Last(before).depth + 1 then |ms|
                        else Singles(before)
  {
  }

  lemma PrintedNext(ms: seq<Entry>, base: nat)
    requires Rising(ms) && ms != []
    ensures Printed(ms, base) == if Last(ms).depth == 1 then Shown(Last(ms), base)
                                 else Shown(Last(ms), base) + "-" + Printed(ms[..|ms| - 1], base)
  {
    hide Shown;
    assert |ms| > 1 ==> ms[|ms| - 1].depth > ms[0].depth >= 1;
  }

  lemma RenderedLast(ms: seq<Entry>, id: string)
    requires Rising(ms) && ms != []
    ensures var before := ms[..|ms| - 1];
      && Rising(before) && Last(before).depth < Last(ms).depth
      && Rendered(ms, id)
         == [Piece(Last(before).depth, Last(ms).depth, id) + "_" + Last(ms).qtype] + Rendered(before, id)
  {
    hide Piece;
  }

  lemma LastPlainType(ms: seq<Entry>)
    requires PlainTypes(ms) && ms != []
    ensures PlainType(Last(ms).qtype) && PlainTypes(ms[..|ms| - 1])
  {
    hide PlainType;
  }

  lemma {:induction false} ReadRendered(ms: seq<Entry>, id: string, base: nat)
    requires Rising(ms) && IdLabel(id) && PlainTypes(ms) && Last(ms).depth + base <= MAX_INT
    ensures ReadParts(Rendered(ms, id), base) == Scan(Singles(ms), Singles(ms) < |ms|, Printed(ms, base))
    decreases |ms|
  {
    if ms != [] {
      hide *;
      var before := ms[..|ms| - 1];
      SinglesNext(ms);
      PrintedNext(ms, base);
      RenderedLast(ms, id);
      LastPlainType(ms);
      ReadRendered(before, id, base);
      ReadLine(ReadParts(Rendered(before, id), base), Last(before).depth, Last(ms), id, base);
      ReadNext(Piece(Last(before).depth, Last(ms).depth, id) + "_" + Last(ms).qtype, Rendered(before, id), base);
    }
  }

  lemma {:induction false} RenderedFree(ms: seq<Entry>, id: string, c: char)
    requires Rising(ms) && Free(id, c) && !IsDigit(c) && c != '.' && c != '_'
    requires forall i :: 0 <= i < |ms| ==> Free(ms[i].qtype, c)
    ensures |Rendered(ms, id)| == |ms| && forall i :: 0 <= i < |ms| ==> Free(Rendered(ms, id)[i], c)
  {
    if ms != [] {
      var before := ms[..|ms| - 1];
      RenderedFree(before, id, c);
      PieceFree(Last(before).depth, Last(ms).depth, id, c);
      assert Free(Last(ms).qtype, c);
    }
  }

  // The log lines: the maxima, and maybe the extra line on top.
  function LogLines(d: nat, id: string, ms: seq<Entry>, extra: bool): seq<string>
    requires Rising(ms) && d >= 1
  {
    (if extra then [Extra(d)] else []) + Rendered(ms, id)
  }

  function LogEntries(d: nat, ms: seq<Entry>, extra: bool): seq<Entry>
  {
    ms + if extra then [Entry(d, "TXT")] else []
  }

  ghost predicate LogShape(d: nat, id: string, ms: seq<Entry>, extra: bool)
  {
    && d >= 1 && Rising(ms) && ms != [] && Last(ms).depth <= d && PlainTypes(ms)
    && IdLabel(id) && Free(id, '|') && Free(id, ',')
    && (extra ==> Last(ms).depth == d && Last(ms).qtype != "TXT")
  }

  lemma LinesFree(d: nat, id: string, ms: seq<Entry>, extra: bool, c: char)
    requires LogShape(d, id, ms, extra) && (c == '|' || c == ',')
    ensures var log := LogLines(d, id, ms, extra);
      |log| == |LogEntries(d, ms, extra)| && forall i :: 0 <= i < |log| ==> Free(log[i], c)
  {
    hide Rendered, Itoa;
    RenderedFree(ms, id, c);
    DigitsFree(Itoa(d - 1), c);
    if extra {
      assert forall i :: 0 <= i < |ms| ==> LogLines(d, id, ms, extra)[i + 1] == Rendered(ms, id)[i];
    }
  }

  lemma ReadLog(d: nat, id: string, ms: seq<Entry>, extra: bool, base: nat)
    requires LogShape(d, id, ms, extra) && d + base <= MAX_INT
    ensures ReadParts(LogLines(d, id, ms, extra), base)
      == Scan(if extra && Singles(ms) == |ms| then |ms| + 1 else Singles(ms), Singles(ms) < |ms|,
              Printed(LogEntries(d, ms, extra), base))
  {
    hide ReadPart, Rendered, Extra, Shown, Rising, IdLabel, PlainTypes;
    ReadRendered(ms, id, base);
    if extra {
      assert ([Extra(d)] + Rendered(ms, id))[1..] == Rendered(ms, id);
      ReadExtra(ReadParts(Rendered(ms, id), base), d, base);
      assert (ms + [Entry(d, "TXT")])[..|ms|] == ms;
    } else {
      assert [] + Rendered(ms, id) == Rendered(ms, id);
      assert ms + [] == ms;
    }
  }

  // A log of two or more lines: reported as minimising, every line printed with its depth under the
  // base domain and its type from the deepest to the shallowest, the number of lines as the maximum
  // and the initial block of one-label lines as the minimum.
  lemma AnalyzeLog(d: nat, id: string, ms: seq<Entry>, extra: bool, baseURL: string)
    requires LogShape(d, id, ms, extra) && d + BaseLabels(baseURL) <= MAX_INT
    requires |LogEntries(d, ms, extra)| >= 2
    ensures Analyzed(Join(LogLines(d, id, ms, extra), '|'), baseURL) ==
      Verdict(true, Printed(LogEntries(d, ms, extra), BaseLabels(baseURL)), |LogEntries(d, ms, extra)|,
              if extra && Singles(ms) == |ms| then |ms| + 1 else Singles(ms))
  {
    var log := LogLines(d, id, ms, extra);
    LinesFree(d, id, ms, extra, '|');
    ReadLog(d, id, ms, extra, BaseLabels(baseURL));
    hide LogLines, LogShape, ReadParts, Split, Join, Count, Printed, Singles, Rising, BaseLabels;
    SplitJoin(log, '|');
    CountSplit(Join(log, '|'), '|');
    CountFree(Join(log, '|'), '|');
  }

  // A log of one line: not minimising, unless the line is the id label alone, which is echoed.
  lemma AnalyzeSingle(d: nat, id: string, e: Entry, baseURL: string)
    requires LogShape(d, id, [e], false)
    ensures var line := Name(e.depth, id) + "_" + e.qtype;
      && Join(LogLines(d, id, [e], false), '|') == line
      && Analyzed(line, baseURL) ==
         if e.depth == 1 then Verdict(false, line, 0, 0)
         else Verdict(false, Shown(e, BaseLabels(baseURL)), 1, 1)
  {
    assert Last([e]) == e;
    assert PlainType([e][0].qtype);
    SingleLine(d, id, e);
    hide LogLines, LogShape, Rising, Split, Join, Count, BaseLabels, Itoa, Name, PlainType, PlainTypes, Rendered,
      HasSuffix;
    var p, t := Name(e.depth, id), e.qtype;
    NameFree(e.depth, id, '_');
    NameFree(e.depth, id, '|');
    LinePart(p, t);
    NameLabels(e.depth, id);
    assert '|' !in p + "_" + t;
    CountFree(p + "_" + t, '.');
  }

  lemma SingleLine(d: nat, id: string, e: Entry)
    requires LogShape(d, id, [e], false)
    ensures Join(LogLines(d, id, [e], false), '|') == Name(e.depth, id) + "_" + e.qtype
  {
    hide Piece, Name;
    WholeName(e.depth, id);
    assert [e][..0] == [];
    assert Last([e]) == e && Last([]).depth == 0;
    assert Rendered([], id) == [];
    assert Rendered([e], id) == [Name(e.depth, id) + "_" + e.qtype];
  }

  // ---------- nothing is lost ----------

  // A type that can follow a number and precede a dash without being misread.
  ghost predicate Alphabetic(t: string)
  {
    Free(t, '-') && (t == "" || !IsDigit(t[0]))
  }

  // The dash-separated fields of a pattern.
  function Fields(ls: seq<Entry>, base: nat): seq<string>
  {
    if ls == [] then [""]
    else if |ls| == 1 && ls[0].depth == 1 then [Shown(ls[0], base)]
    else [Shown(ls[|ls| - 1], base)] + Fields(ls[..|ls| - 1], base)
  }

  lemma {:induction false} PrintedFields(ls: seq<Entry>, base: nat)
    requires forall i :: 0 <= i < |ls| ==> Alphabetic(ls[i].qtype)
    ensures Split(Printed(ls, base), '-') == Fields(ls, base)
  {
    hide Split;
    if ls == [] {
      SplitFree("", '-');
    } else {
      var e := ls[|ls| - 1];
      assert Alphabetic(e.qtype);
      ShownFree(e, base);
      if |ls| == 1 && ls[0].depth == 1 {
        SplitFree(Shown(e, base), '-');
      } else {
        PrintedFields(ls[..|ls| - 1], base);
        SplitAt(Shown(e, base), '-', Printed(ls[..|ls| - 1], base));
      }
    }
  }

  lemma ShownFree(e: Entry, base: nat)
    requires Alphabetic(e.qtype)
    ensures Free(Shown(e, base), '-') && Shown(e, base) != ""
  {
    DigitsFree(Itoa(e.depth + base), '-');
  }

  function DigitRun(s: string): nat
  {
    if s == "" || !IsDigit(s[0]) then 0 else 1 + DigitRun(s[1..])
  }

  lemma {:induction false} DigitRunOf(x: string, t: string)
    requires AllDigits(x) && (t == "" || !IsDigit(t[0]))
    ensures DigitRun(x + t) == |x|
  {
    if x == "" {
      assert x + t == t;
    } else {
      assert (x + t)[1..] == x[1..] + t;
      DigitRunOf(x[1..], t);
    }
  }

  lemma ShownInjective(a: Entry, b: Entry, base: nat)
    requires Shown(a, base) == Shown(b, base) && Alphabetic(a.qtype) && Alphabetic(b.qtype)
    ensures a == b
  {
    var s := Shown(a, base);
    var x, y := Itoa(a.depth + base), Itoa(b.depth + base);
    hide Itoa;
    DigitRunOf(x, a.qtype);
    DigitRunOf(y, b.qtype);
    assert s[..|x|] == x && s[|x|..] == a.qtype && s[..|y|] == y && s[|y|..] == b.qtype;
    assert x == y;
    ItoaInjective(a.depth + base, b.depth + base);
  }

  lemma {:induction false} FieldsInjective(a: seq<Entry>, b: seq<Entry>, base: nat)
    requires forall i :: 0 <= i < |a| ==> Alphabetic(a[i].qtype)
    requires forall i :: 0 <= i < |b| ==> Alphabetic(b[i].qtype)
    requires Fields(a, base) == Fields(b, base)
    ensures a == b
  {
    hide Shown, Alphabetic;
    FieldsNext(a, base);
    FieldsNext(b, base);
    if a != [] && b != [] {
      var x, y := a[|a| - 1], b[|b| - 1];
      ShownInjective(x, y, base);
      if |a| == 1 && a[0].depth == 1 {
      } else if |b| == 1 && b[0].depth == 1 {
      } else {
        assert Fields(a, base)[1..] == Fields(a[..|a| - 1], base);
        assert Fields(b, base)[1..] == Fields(b[..|b| - 1], base);
        FieldsInjective(a[..|a| - 1], b[..|b| - 1], base);
      }
    }
  }

  lemma FieldsNext(ls: seq<Entry>, base: nat)
    requires forall i :: 0 <= i < |ls| ==> Alphabetic(ls[i].qtype)
    ensures ls == [] <==> Fields(ls, base)[0] == ""
    ensures ls != [] ==> Fields(ls, base)[0] == Shown(ls[|ls| - 1], base)
    ensures |Fields(ls, base)| == 1 <==> ls == [] || (|ls| == 1 && ls[0].depth == 1)
  {
    if ls != [] {
      assert Alphabetic(ls[|ls| - 1].qtype);
      ShownFree(ls[|ls| - 1], base);
      hide Shown;
      FieldsNonempty(ls[..|ls| - 1], base);
    }
  }

  lemma FieldsNonempty(ls: seq<Entry>, base: nat)
    ensures Fields(ls, base) != []
  {
  }

  // Different logs are printed differently.
  lemma PrintedInjective(a: seq<Entry>, b: seq<Entry>, base: nat)
    requires forall i :: 0 <= i < |a| ==> Alphabetic(a[i].qtype)
    requires forall i :: 0 <= i < |b| ==> Alphabetic(b[i].qtype)
    ensures Printed(a, base) == Printed(b, base) <==> a == b
  {
    if Printed(a, base) == Printed(b, base) {
      PrintedFields(a, base);
      PrintedFields(b, base);
      FieldsInjective(a, b, base);
    }
  }

  ghost predicate AlphabeticTypes(ms: seq<Entry>)
  {
    forall i :: 0 <= i < |ms| ==> Alphabetic(ms[i].qtype)
  }

  lemma NotRising(ms: seq<Entry>, d: nat)
    requires ms != [] && Last(ms).depth == d
    ensures !Rising(ms + [Entry(d, "TXT")])
  {
    var c := ms + [Entry(d, "TXT")];
    assert c[|ms| - 1].depth == c[|ms|].depth;
  }

  // A pattern determines the log lines it was printed from, the extra line included.
  lemma PatternDeterminesLog(d: nat, id: string, a: seq<Entry>, x: bool, id': string, b: seq<Entry>, y: bool, base: nat)
    requires LogShape(d, id, a, x) && LogShape(d, id', b, y) && AlphabeticTypes(a) && AlphabeticTypes(b)
    requires Printed(LogEntries(d, a, x), base) == Printed(LogEntries(d, b, y), base)
    ensures a == b && x == y
  {
    var k, l := LogEntries(d, a, x), LogEntries(d, b, y);
    assert Alphabetic("TXT");
    hide Printed, Alphabetic, PlainTypes, IdLabel, Free;
    PrintedInjective(k, l, base);
    assert k[..|a|] == a && l[..|b|] == b;
    if x { NotRising(a, d); }
    if y { NotRising(b, d); }
  }
}
