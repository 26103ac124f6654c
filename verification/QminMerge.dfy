// Merging the rows of any number of scans into one summary per resolver.
module QminMerge {
  import opened Text
  import opened QminPattern
  import opened Wrappers

  // Three-valued verdicts with a fourth for "not observed".
  const NIL := -1
  const FALSE := 0
  const TRUE := 1
  const UNCERTAIN := 2

  // One row of a scan; requesterParses says whether its requesting address is well formed.
  datatype Row = Row(resolverIp: string, requestingIp: string, response: string, inducedCheck: bool,
                     inducedResponse: string, modeCheck: bool, nxCheck: bool, nxOptimization: int,
                     requesterParses: bool)

  datatype Metadata = Metadata(protocol: string, baseURL: string)

  datatype Summary = Summary(queriedIp: string, protocol: string, requesting: seq<string>, qmin: int, induction: int,
                             mode: string, nx: int, errors: map<string, nat>, count: nat)

  // Conversion to an 8-bit signed integer.
  function Int8(n: int): int
  {
    (n + 128) % 256 - 128
  }

  // The verdict part of a row; None when the pattern analysis stops the program.
  function EvalRow(meta: Metadata, row: Row): (s: Option<Summary>)
    ensures s.Some? ==> |s.value.requesting| <= 1 && s.value.count == 1
    ensures s.Some? ==> s.value.qmin in {NIL, FALSE, TRUE} && s.value.induction in {NIL, FALSE, TRUE}
    ensures s.Some? ==> s.value.mode in {"", "strict", "relaxed"}
    ensures s.Some? ==> forall e :: e in s.value.errors ==> s.value.errors[e] == 1
  {
    var blank := Summary(row.resolverIp, meta.protocol, [], NIL, NIL, "", NIL, map[], 1);
    if row.requestingIp == "NONE" then
      Some(if row.modeCheck && row.response == "nxdomain" then blank.(mode := "strict")
           else if row.nxCheck then blank.(nx := Int8(row.nxOptimization))
           else blank.(errors := map[row.response := 1]))
    else
      var r := blank.(requesting := [row.requestingIp]);
      if row.modeCheck then Some(if '|' in row.response then r.(mode := "relaxed") else r)
      else if row.nxCheck then Some(r.(nx := Int8(row.nxOptimization)))
      else if row.inducedCheck then Some(r.(induction := if '|' in row.inducedResponse then TRUE else FALSE))
      else
        var v := Analyzed(row.response, meta.baseURL);
        if v.Fatal? then None
        else if !row.requesterParses then Some(r)
        else Some(r.(qmin := if v.qmin then TRUE else FALSE))
  }

  // A row that tests plain minimisation and got its answer from a well-formed address.
  predicate PlainTest(row: Row)
  {
    row.requestingIp != "NONE" && !row.modeCheck && !row.nxCheck && !row.inducedCheck && row.requesterParses
  }

  // The verdict on plain minimisation comes from the plain tests only, and is positive exactly when
  // the log had more than one line; a plain test stops the program only if its log cannot be read.
  lemma QminVerdict(meta: Metadata, row: Row)
    ensures EvalRow(meta, row).None? ==> row.requestingIp != "NONE" && Analyzed(row.response, meta.baseURL).Fatal?
    ensures EvalRow(meta, row).Some? ==>
      var v := EvalRow(meta, row).value.qmin;
      && (v == NIL <==> !PlainTest(row))
      && (v == TRUE <==> PlainTest(row) && |Split(row.response, '|')| >= 2)
  {
    hide ReadParts, Split, Count, BaseLabels, IntText;
    CountSplit(row.response, '|');
    CountFree(row.response, '|');
  }

  // One observation joined to another: the bottom value says nothing, a clash gives the top value.
  function Either<T(==)>(a: T, b: T, bottom: T, top: T): T
  {
    if a == bottom then b else if b != bottom && a != b then top else a
  }

  function Times(errors: map<string, nat>, e: string): nat
  {
    if e in errors then errors[e] else 0
  }

  function Added(a: map<string, nat>, b: map<string, nat>): map<string, nat>
  {
    map e | e in a.Keys + b.Keys :: Times(a, e) + Times(b, e)
  }

  function Combined(a: Summary, b: Summary): Summary
  {
    a.(requesting := if |b.requesting| >= 1 && b.requesting[0] !in a.requesting then a.requesting + [b.requesting[0]]
                     else a.requesting,
       qmin := Either(a.qmin, b.qmin, NIL, UNCERTAIN),
       induction := Either(a.induction, b.induction, NIL, UNCERTAIN),
       nx := Either(a.nx, b.nx, NIL, UNCERTAIN),
       mode := Either(a.mode, b.mode, "", "both"),
       errors := Added(a.errors, b.errors),
       count := a.count + 1)
  }

  method CombineResults(a: Summary, b: Summary) returns (res: Summary)
    ensures res == Combined(a, b)
  {
    hide Added, Either;
    res := a;
    if |b.requesting| >= 1 && b.requesting[0] !in res.requesting {
      res := res.(requesting := res.requesting + [b.requesting[0]]);
    }
    var qmin := Join(a.qmin, b.qmin, NIL, UNCERTAIN);
    var induction := Join(a.induction, b.induction, NIL, UNCERTAIN);
    var nx := Join(a.nx, b.nx, NIL, UNCERTAIN);
    var mode := Join(a.mode, b.mode, "", "both");
    var errors := AddErrors(a.errors, b.errors);
    res := res.(qmin := qmin, induction := induction, nx := nx, mode := mode, errors := errors, count := res.count + 1);
  }

  // The same three branches for each verdict and for the mode.
  method Join<T(==)>(a: T, b: T, bottom: T, top: T) returns (r: T)
    ensures r == Either(a, b, bottom, top)
  {
    r := a;
    if r == bottom {
      r := b;
    } else if b != bottom {
      if r != b {
        r := top;
      }
    }
  }

  // The keys come in any order.
  method AddErrors(a: map<string, nat>, b: map<string, nat>) returns (errors: map<string, nat>)
    ensures errors == Added(a, b)
  {
    errors := a;
    var left := b.Keys;
    while left != {}
      invariant left <= b.Keys
      invariant errors.Keys == a.Keys + (b.Keys - left)
      invariant forall e :: e in errors ==> errors[e] == Times(a, e) + if e in left then 0 else Times(b, e)
    {
      var k :| k in left;
      errors := errors[k := (if k in errors then errors[k] else 0) + b[k]];
      left := left - {k};
    }
  }

  // ---------- the table ----------

  // A row together with the metadata of the file it stands in.
  datatype Line = Line(meta: Metadata, row: Row)

  function KeyOf(l: Line): string
  {
    l.meta.protocol + l.row.resolverIp
  }

  function Enter(res1: map<string, Summary>, key: string, s: Summary): map<string, Summary>
  {
    res1[key := if key in res1 then Combined(res1[key], s) else s]
  }

  // The table after some lines; None once the program has stopped.
  function Process(res1: map<string, Summary>, lines: seq<Line>): Option<map<string, Summary>>
  {
    if lines == [] then Some(res1)
    else
      var last := lines[|lines| - 1];
      var before := Process(res1, lines[..|lines| - 1]);
      var s := EvalRow(last.meta, last.row);
      if before.None? || s.None? then None else Some(Enter(before.value, KeyOf(last), s.value))
  }

  function Lines(meta: Metadata, rows: seq<Row>): (ls: seq<Line>)
    ensures |ls| == |rows| && forall i :: 0 <= i < |ls| ==> ls[i] == Line(meta, rows[i])
  {
    seq(|rows|, i requires 0 <= i < |rows| => Line(meta, rows[i]))
  }

  lemma {:induction false} ProcessAppend(res1: map<string, Summary>, a: seq<Line>, b: seq<Line>)
    ensures Process(res1, a + b)
      == if Process(res1, a).None? then None else Process(Process(res1, a).value, b)
  {
    if b == [] {
      assert a + b == a;
    } else {
      hide EvalRow, Enter;
      ProcessAppend(res1, a, b[..|b| - 1]);
      assert (a + b)[..|a + b| - 1] == a + b[..|b| - 1];
    }
  }

  class PostProcessor {
    var res1: map<string, Summary>

    constructor ()
      ensures res1 == map[]
    {
      res1 := map[];
    }

    // One file; false when the program stops, and then the table is not written out.
    method ProcessFile(meta: Metadata, rows: seq<Row>) returns (ok: bool)
      modifies this
      ensures ok <==> Process(old(res1), Lines(meta, rows)).Some?
      ensures ok ==> Process(old(res1), Lines(meta, rows)) == Some(res1)
    {
      ghost var lines := Lines(meta, rows);
      assert lines[..0] == [];
      hide EvalRow, Enter, Lines;
      for i := 0 to |rows|
        invariant Process(old(res1), lines[..i]) == Some(res1)
      {
        var r1 := EvalRow(meta, rows[i]);
        assert lines[..i + 1][..i] == lines[..i] && lines[i] == Line(meta, rows[i]);
        if r1.None? {
          assert lines == lines[..i + 1] + lines[i + 1..];
          ProcessAppend(old(res1), lines[..i + 1], lines[i + 1..]);
          return false;
        }
        EnterIs(res1, KeyOf(lines[i]), r1.value);
        var key := meta.protocol + rows[i].resolverIp;
        if key in res1 {
          var tmp := CombineResults(res1[key], r1.value);
          res1 := res1[key := tmp];
        } else {
          res1 := res1[key := r1.value];
        }
      }
      assert lines[..|rows|] == lines;
      return true;
    }
  }

  lemma EnterIs(res1: map<string, Summary>, key: string, s: Summary)
    ensures Enter(res1, key, s) == res1[key := if key in res1 then Combined(res1[key], s) else s]
  {
  }

  // ---------- what a summary says about its rows ----------

  // The one value seen besides the bottom one, or the top value when there were several.
  ghost function Joined<T(!new)>(seen: set<T>, bottom: T, top: T): T
  {
    var s := seen - {bottom};
    if s == {} then bottom
    else
      var x :| x in s;
      if s == {x} then x else top
  }

  lemma JoinedNext<T(!new)>(seen: set<T>, v: T, bottom: T, top: T)
    requires top != bottom
    ensures Joined(seen + {v}, bottom, top) == Either(Joined(seen, bottom, top), v, bottom, top)
  {
    var s, t := seen - {bottom}, (seen + {v}) - {bottom};
    if v == bottom {
      assert t == s;
    } else {
      assert t == s + {v};
      if s == {} {
        assert t == {v};
        JoinedOne({v} + seen, v, bottom, top);
        assert seen + {v} == {v} + seen;
      } else if exists x :: s == {x} {
        var x :| s == {x};
        JoinedOne(seen, x, bottom, top);
        if v == x {
          assert t == s;
        } else {
          JoinedMany(seen + {v}, x, v, bottom, top);
        }
      } else {
        var x :| x in s;
        assert s != {x};
        var y :| y in s && y != x;
        JoinedMany(seen, x, y, bottom, top);
        JoinedMany(seen + {v}, x, y, bottom, top);
      }
    }
  }

  lemma JoinedOne<T(!new)>(seen: set<T>, x: T, bottom: T, top: T)
    requires seen - {bottom} == {x}
    ensures Joined(seen, bottom, top) == x
  {
  }

  lemma JoinedMany<T(!new)>(seen: set<T>, x: T, y: T, bottom: T, top: T)
    requires x in seen && y in seen && x != y && x != bottom && y != bottom
    ensures Joined(seen, bottom, top) == top
  {
    var s := seen - {bottom};
    assert x in s && y in s;
  }

  function Qmins(rows: seq<Summary>): set<int> { set r | r in rows :: r.qmin }
  function Inductions(rows: seq<Summary>): set<int> { set r | r in rows :: r.induction }
  function Nxs(rows: seq<Summary>): set<int> { set r | r in rows :: r.nx }
  function Modes(rows: seq<Summary>): set<string> { set r | r in rows :: r.mode }
  function Requesters(rows: seq<Summary>): set<string> { set r | r in rows && |r.requesting| >= 1 :: r.requesting[0] }
  function ErrorNames(rows: seq<Summary>): set<string> { set r, e | r in rows && e in r.errors :: e }

  function Total(rows: seq<Summary>, e: string): nat
  {
    if rows == [] then 0 else Total(rows[..|rows| - 1], e) + Times(rows[|rows| - 1].errors, e)
  }

  predicate NoRepeats(xs: seq<string>)
  {
    forall i, j :: 0 <= i < j < |xs| ==> xs[i] != xs[j]
  }

  ghost predicate Describes(s: Summary, rows: seq<Summary>)
  {
    && s.qmin == Joined(Qmins(rows), NIL, UNCERTAIN)
    && s.induction == Joined(Inductions(rows), NIL, UNCERTAIN)
    && s.nx == Joined(Nxs(rows), NIL, UNCERTAIN)
    && s.mode == Joined(Modes(rows), "", "both")
    && NoRepeats(s.requesting) && (forall x :: x in s.requesting <==> x in Requesters(rows))
    && s.errors.Keys == ErrorNames(rows) && (forall e :: e in s.errors ==> s.errors[e] == Total(rows, e))
    && s.count == |rows|
  }

  predicate RowShaped(s: Summary)
  {
    |s.requesting| <= 1 && s.count == 1
  }

  lemma OneRow(s: Summary)
    requires RowShaped(s)
    ensures Describes(s, [s])
  {
    hide Joined;
    var rows := [s];
    JoinedSingleton(s.qmin, NIL, UNCERTAIN);
    JoinedSingleton(s.induction, NIL, UNCERTAIN);
    JoinedSingleton(s.nx, NIL, UNCERTAIN);
    JoinedSingleton(s.mode, "", "both");
    assert Qmins(rows) == {s.qmin} && Inductions(rows) == {s.induction};
    assert Nxs(rows) == {s.nx} && Modes(rows) == {s.mode};
    assert [] + rows == rows;
    RequestersNext([], s);
    assert Requesters([]) == {} && ErrorNames([]) == {};
    assert rows[..0] == [] && forall e :: Total(rows, e) == Total([], e) + Times(s.errors, e);
    hide Qmins, Inductions, Nxs, Modes, Requesters, ErrorNames, Total;
  }

  lemma JoinedSingleton<T(!new)>(v: T, bottom: T, top: T)
    ensures Joined({v}, bottom, top) == v
  {
    if v == bottom {
      assert {v} - {bottom} == {};
    } else {
      assert {v} - {bottom} == {v};
    }
  }

  lemma SeenNext(rows: seq<Summary>, s: Summary)
    ensures Qmins(rows + [s]) == Qmins(rows) + {s.qmin}
    ensures Inductions(rows + [s]) == Inductions(rows) + {s.induction}
    ensures Nxs(rows + [s]) == Nxs(rows) + {s.nx}
    ensures Modes(rows + [s]) == Modes(rows) + {s.mode}
  {
  }

  lemma RequestersNext(rows: seq<Summary>, s: Summary)
    ensures Requesters(rows + [s]) == Requesters(rows) + (if |s.requesting| >= 1 then {s.requesting[0]} else {})
    ensures ErrorNames(rows + [s]) == ErrorNames(rows) + s.errors.Keys
  {
  }

  lemma DescribesNext(s: Summary, rows: seq<Summary>, r: Summary)
    requires Describes(s, rows) && RowShaped(r)
    ensures Describes(Combined(s, r), rows + [r])
  {
    hide Joined, Qmins, Inductions, Nxs, Modes, Requesters, ErrorNames;
    SeenNext(rows, r);
    RequestersNext(rows, r);
    JoinedNext(Qmins(rows), r.qmin, NIL, UNCERTAIN);
    JoinedNext(Inductions(rows), r.induction, NIL, UNCERTAIN);
    JoinedNext(Nxs(rows), r.nx, NIL, UNCERTAIN);
    JoinedNext(Modes(rows), r.mode, "", "both");
    assert (rows + [r])[..|rows|] == rows;
    forall e | e in Added(s.errors, r.errors) ensures Added(s.errors, r.errors)[e] == Total(rows + [r], e) {
      if e !in s.errors {
        NeverTotal(rows, e);
      }
    }
  }

  lemma {:induction false} NeverTotal(rows: seq<Summary>, e: string)
    requires e !in ErrorNames(rows)
    ensures Total(rows, e) == 0
  {
    if rows != [] {
      var n := |rows| - 1;
      assert rows[..n] + [rows[n]] == rows;
      RequestersNext(rows[..n], rows[n]);
      NeverTotal(rows[..n], e);
    }
  }

  // The rows filed under one key, in order.
  function Filed(lines: seq<Line>, key: string): seq<Summary>
    requires AllEvaluate(lines)
  {
    if lines == [] then []
    else
      var last := lines[|lines| - 1];
      var before := Filed(lines[..|lines| - 1], key);
      if KeyOf(last) == key then before + [EvalRow(last.meta, last.row).value] else before
  }

  predicate AllEvaluate(lines: seq<Line>)
  {
    forall i :: 0 <= i < |lines| ==> EvalRow(lines[i].meta, lines[i].row).Some?
  }

  // The table has an entry for exactly the keys that occur, and it describes all their rows.
  lemma {:induction false} TableDescribes(lines: seq<Line>, key: string)
    requires AllEvaluate(lines)
    ensures var t := Process(map[], lines);
      && t.Some? && (key in t.value <==> Filed(lines, key) != [])
      && (key in t.value ==> Describes(t.value[key], Filed(lines, key)))
  {
    if lines != [] {
      hide EvalRow, Combined, Describes;
      var n := |lines| - 1;
      TableDescribes(lines[..n], key);
      if KeyOf(lines[n]) == key {
        var r := EvalRow(lines[n].meta, lines[n].row).value;
        var before := Filed(lines[..n], key);
        RowsShaped(lines[n]);
        if before == [] {
          OneRow(r);
          assert [] + [r] == [r];
        } else {
          DescribesNext(Process(map[], lines[..n]).value[key], before, r);
        }
      }
    }
  }

  lemma RowsShaped(l: Line)
    requires EvalRow(l.meta, l.row).Some?
    ensures RowShaped(EvalRow(l.meta, l.row).value)
  {
    hide EvalRow;
  }

  // ---------- order and split do not matter ----------

  lemma {:induction false} FiledConcat(a: seq<Line>, b: seq<Line>, key: string)
    requires AllEvaluate(a + b)
    ensures AllEvaluate(a) && AllEvaluate(b)
    ensures Filed(a + b, key) == Filed(a, key) + Filed(b, key)
  {
    hide EvalRow;
    assert forall i :: 0 <= i < |a| ==> a[i] == (a + b)[i];
    assert forall i :: 0 <= i < |b| ==> b[i] == (a + b)[|a| + i];
    if b == [] {
      assert a + b == a;
    } else {
      var c := b[..|b| - 1];
      assert (a + b)[..|a + b| - 1] == a + c;
      FiledConcat(a, c, key);
    }
  }

  lemma {:induction false} TotalConcat(a: seq<Summary>, b: seq<Summary>, e: string)
    ensures Total(a + b, e) == Total(a, e) + Total(b, e)
  {
    if b == [] {
      assert a + b == a;
    } else {
      assert (a + b)[..|a + b| - 1] == a + b[..|b| - 1];
      TotalConcat(a, b[..|b| - 1], e);
    }
  }

  lemma SplitOut<T>(b: seq<T>, j: nat)
    requires j < |b|
    ensures b == b[..j] + [b[j]] + b[j + 1..]
    ensures multiset(b) == multiset(b[..j] + b[j + 1..]) + multiset{b[j]}
  {
    assert b == b[..j] + [b[j]] + b[j + 1..];
  }

  // Taking one element out of a list that holds the elements of a + [x] leaves those of a.
  lemma TakeOut<T>(a: seq<T>, x: T, b: seq<T>) returns (j: nat)
    requires multiset(a + [x]) == multiset(b)
    ensures j < |b| && b[j] == x
    ensures b == b[..j] + [x] + b[j + 1..]
    ensures multiset(a) == multiset(b[..j] + b[j + 1..])
  {
    ghost var whole := multiset(b);
    assert (a + [x])[|a|] == x;
    assert x in whole;
    j :| 0 <= j < |b| && b[j] == x;
    SplitOut(b, j);
    var rest := multiset(b[..j] + b[j + 1..]);
    assert multiset(a) + multiset{x} == rest + multiset{x};
    SameRest(multiset(a), rest, x);
  }

  lemma SameRest<T>(a: multiset<T>, b: multiset<T>, x: T)
    requires a + multiset{x} == b + multiset{x}
    ensures a == b
  {
    forall y ensures a[y] == b[y] {
      assert (a + multiset{x})[y] == (b + multiset{x})[y];
    }
  }

  lemma {:induction false} FiledPermuted(a: seq<Line>, b: seq<Line>, key: string)
    requires AllEvaluate(a) && AllEvaluate(b) && multiset(a) == multiset(b)
    ensures multiset(Filed(a, key)) == multiset(Filed(b, key))
    decreases |a|
  {
    hide EvalRow;
    if a == [] {
      assert |multiset(b)| == 0;
    } else {
      var n := |a| - 1;
      var x := a[n];
      assert a == a[..n] + [x];
      var j := TakeOut(a[..n], x, b);
      var p, s := b[..j], b[j + 1..];
      assert AllEvaluate(p + s);
      FiledPermuted(a[..n], p + s, key);
      FiledConcat(p, s, key);
      FiledConcat(p + [x], s, key);
      FiledConcat(p, [x], key);
      FiledConcat(a[..n], [x], key);
    }
  }

  lemma {:induction false} TotalPermuted(a: seq<Summary>, b: seq<Summary>, e: string)
    requires multiset(a) == multiset(b)
    ensures Total(a, e) == Total(b, e)
    decreases |a|
  {
    if a == [] {
      assert |multiset(b)| == 0;
    } else {
      var n := |a| - 1;
      var x := a[n];
      assert a == a[..n] + [x];
      var j := TakeOut(a[..n], x, b);
      TotalPermuted(a[..n], b[..j] + b[j + 1..], e);
      TotalConcat(b[..j], b[j + 1..], e);
      TotalConcat(b[..j] + [x], b[j + 1..], e);
      TotalConcat(b[..j], [x], e);
      TotalConcat(a[..n], [x], e);
    }
  }

  // Two summaries that differ at most in the order of the requesting addresses.
  ghost predicate Same(a: Summary, b: Summary)
  {
    && a.qmin == b.qmin && a.induction == b.induction && a.nx == b.nx && a.mode == b.mode
    && a.errors == b.errors && a.count == b.count
    && multiset(a.requesting) == multiset(b.requesting)
  }

  lemma SameRowsSame(a: Summary, b: Summary, rows: seq<Summary>, rows': seq<Summary>)
    requires Describes(a, rows) && Describes(b, rows') && multiset(rows) == multiset(rows')
    ensures Same(a, b)
  {
    hide Joined, Total;
    forall r ensures r in rows <==> r in rows' {
      assert r in rows <==> r in multiset(rows);
      assert r in rows' <==> r in multiset(rows');
    }
    SameSeen(rows, rows');
    forall e | e in a.errors ensures a.errors[e] == b.errors[e] {
      TotalPermuted(rows, rows', e);
    }
    assert |rows| == |multiset(rows)| == |multiset(rows')|;
    hide Qmins, Inductions, Nxs, Modes, Requesters, ErrorNames;
    SameElements(a.requesting, b.requesting);
  }

  lemma SameSeen(rows: seq<Summary>, rows': seq<Summary>)
    requires forall r :: r in rows <==> r in rows'
    ensures Qmins(rows) == Qmins(rows') && Inductions(rows) == Inductions(rows') && Nxs(rows) == Nxs(rows')
    ensures Modes(rows) == Modes(rows') && Requesters(rows) == Requesters(rows')
    ensures ErrorNames(rows) == ErrorNames(rows')
  {
  }

  lemma SameElements(a: seq<string>, b: seq<string>)
    requires NoRepeats(a) && NoRepeats(b) && forall x :: x in a <==> x in b
    ensures multiset(a) == multiset(b)
  {
    forall x ensures multiset(a)[x] == multiset(b)[x] {
      OnceEach(a, x);
      OnceEach(b, x);
    }
  }

  lemma {:induction false} OnceEach(a: seq<string>, x: string)
    requires NoRepeats(a)
    ensures multiset(a)[x] == if x in a then 1 else 0
  {
    if a != [] {
      var n := |a| - 1;
      assert a == a[..n] + [a[n]];
      OnceEach(a[..n], x);
    }
  }

  datatype File = File(meta: Metadata, rows: seq<Row>)

  function AllLines(files: seq<File>): seq<Line>
  {
    if files == [] then [] else AllLines(files[..|files| - 1]) + Lines(files[|files| - 1].meta, files[|files| - 1].rows)
  }

  // One table over all files, file by file.
  function ProcessFiles(files: seq<File>): Option<map<string, Summary>>
  {
    if files == [] then Some(map[])
    else
      var before := ProcessFiles(files[..|files| - 1]);
      if before.None? then None
      else Process(before.value, Lines(files[|files| - 1].meta, files[|files| - 1].rows))
  }

  lemma {:induction false} FilesAreLines(files: seq<File>)
    ensures ProcessFiles(files) == Process(map[], AllLines(files))
  {
    if files != [] {
      var n := |files| - 1;
      FilesAreLines(files[..n]);
      ProcessAppend(map[], AllLines(files[..n]), Lines(files[n].meta, files[n].rows));
    }
  }

  lemma {:induction false} StopsIff(lines: seq<Line>)
    ensures Process(map[], lines).Some? <==> AllEvaluate(lines)
  {
    if lines != [] {
      hide EvalRow, Enter;
      var n := |lines| - 1;
      StopsIff(lines[..n]);
      assert lines == lines[..n] + [lines[n]];
    }
  }

  // Any permutation of the rows and any split into files of the same scans: the same keys, and for
  // each the same verdicts, mode, error counts, set of requesting addresses and number of rows.
  lemma OrderFree(fs: seq<File>, gs: seq<File>, key: string)
    requires multiset(AllLines(fs)) == multiset(AllLines(gs))
    ensures ProcessFiles(fs).Some? <==> ProcessFiles(gs).Some?
    ensures ProcessFiles(fs).Some? ==>
      var a, b := ProcessFiles(fs).value, ProcessFiles(gs).value;
      && (key in a <==> key in b)
      && (key in a ==> Same(a[key], b[key]))
  {
    var x, y := AllLines(fs), AllLines(gs);
    FilesAreLines(fs);
    FilesAreLines(gs);
    StopsIff(x);
    StopsIff(y);
    SameEvaluate(x, y);
    hide EvalRow, AllLines, Describes, Same, Process, ProcessFiles, AllEvaluate;
    if AllEvaluate(x) {
      TableDescribes(x, key);
      TableDescribes(y, key);
      FiledPermuted(x, y, key);
      assert |Filed(x, key)| == |multiset(Filed(x, key))| == |multiset(Filed(y, key))|;
      if Filed(x, key) != [] {
        SameRowsSame(Process(map[], x).value[key], Process(map[], y).value[key], Filed(x, key), Filed(y, key));
      }
    }
  }

  lemma SameEvaluate(x: seq<Line>, y: seq<Line>)
    requires multiset(x) == multiset(y)
    ensures AllEvaluate(x) <==> AllEvaluate(y)
  {
    hide EvalRow;
    if AllEvaluate(x) { EvaluateCarries(x, y); }
    if AllEvaluate(y) { EvaluateCarries(y, x); }
  }

  lemma EvaluateCarries(x: seq<Line>, y: seq<Line>)
    requires multiset(x) == multiset(y) && AllEvaluate(x)
    ensures AllEvaluate(y)
  {
    hide EvalRow;
    forall i | 0 <= i < |y| ensures EvalRow(y[i].meta, y[i].row).Some? {
      assert y[i] in multiset(x);
      var j :| 0 <= j < |x| && x[j] == y[i];
    }
  }

  // How a join of observations reads when only two values x and y can be observed.
  ghost predicate TwoWay<T(!new)>(v: T, seen: set<T>, bottom: T, x: T, y: T, top: T)
  {
    && (v == top <==> x in seen && y in seen)
    && (v == x <==> x in seen && y !in seen)
    && (v == y <==> x !in seen && y in seen)
    && (v == bottom <==> x !in seen && y !in seen)
  }

  // How it reads in general: two different observations clash.
  ghost predicate ManyWay<T(!new)>(v: T, seen: set<T>, bottom: T, top: T)
  {
    && (v == top <==> top in seen || exists x, y :: x in seen && y in seen && x != bottom && y != bottom && x != y)
    && (v == bottom <==> forall x :: x in seen ==> x == bottom)
    && (v != top && v != bottom ==> v in seen && forall x :: x in seen ==> x == bottom || x == v)
  }

  lemma JoinedManyWay<T(!new)>(seen: set<T>, bottom: T, top: T)
    requires top != bottom
    ensures ManyWay(Joined(seen, bottom, top), seen, bottom, top)
  {
    var s := seen - {bottom};
    if s == {} {
      forall x | x in seen ensures x == bottom {
        assert x !in s;
      }
    } else {
      var x :| x in s;
      if s == {x} {
        JoinedOne(seen, x, bottom, top);
        forall y | y in seen ensures y == bottom || y == x {
          assert y in s || y == bottom;
        }
      } else {
        var y := Another(s, x);
        JoinedMany(seen, x, y, bottom, top);
        assert x in seen && y in seen && x != bottom && y != bottom && x != y;
      }
    }
  }

  lemma Another<T(!new)>(s: set<T>, x: T) returns (y: T)
    requires x in s && s != {x}
    ensures y in s && y != x
  {
    if s - {x} == {} {
      assert forall y :: y in s ==> y in {x} || y in s - {x};
    }
    y :| y in s - {x};
  }

  lemma JoinedTwoWay<T(!new)>(seen: set<T>, bottom: T, x: T, y: T, top: T)
    requires seen <= {bottom, x, y} && x != y && bottom !in {x, y, top} && top !in {x, y}
    ensures TwoWay(Joined(seen, bottom, top), seen, bottom, x, y, top)
  {
    hide Joined;
    if x in seen && y in seen {
      JoinedMany(seen, x, y, bottom, top);
    } else if x in seen {
      assert seen - {bottom} == {x};
      JoinedOne(seen, x, bottom, top);
    } else if y in seen {
      assert seen - {bottom} == {y};
      JoinedOne(seen, y, bottom, top);
    } else {
      assert seen - {bottom} == {};
      JoinedNone(seen, bottom, top);
    }
  }

  lemma JoinedNone<T(!new)>(seen: set<T>, bottom: T, top: T)
    requires seen - {bottom} == {}
    ensures Joined(seen, bottom, top) == bottom
  {
  }

  // What each merged verdict means: "uncertain" exactly when both verdicts occurred among the rows,
  // a verdict exactly when it alone occurred, "not observed" exactly when none did; likewise for the
  // mode. For the NXDOMAIN optimisation, whose rows can hold any value, exactly when two values clash.
  lemma UncertainIff(lines: seq<Line>, key: string)
    requires AllEvaluate(lines) && Filed(lines, key) != []
    ensures var t := Process(map[], lines);
      && t.Some? && key in t.value
      && var rows := Filed(lines, key);
      && TwoWay(t.value[key].qmin, Qmins(rows), NIL, FALSE, TRUE, UNCERTAIN)
      && TwoWay(t.value[key].induction, Inductions(rows), NIL, FALSE, TRUE, UNCERTAIN)
      && TwoWay(t.value[key].mode, Modes(rows), "", "strict", "relaxed", "both")
      && ManyWay(t.value[key].nx, Nxs(rows), NIL, UNCERTAIN)
  {
    TableDescribes(lines, key);
    RowValues(lines, key);
    hide EvalRow, Filed, Process, Joined, TwoWay, ManyWay, Qmins, Inductions, Nxs, Modes, AllEvaluate;
    var rows := Filed(lines, key);
    JoinedTwoWay(Qmins(rows), NIL, FALSE, TRUE, UNCERTAIN);
    JoinedTwoWay(Inductions(rows), NIL, FALSE, TRUE, UNCERTAIN);
    JoinedTwoWay(Modes(rows), "", "strict", "relaxed", "both");
    JoinedManyWay(Nxs(rows), NIL, UNCERTAIN);
  }

  lemma {:induction false} RowValues(lines: seq<Line>, key: string)
    requires AllEvaluate(lines)
    ensures Qmins(Filed(lines, key)) <= {NIL, FALSE, TRUE} && Inductions(Filed(lines, key)) <= {NIL, FALSE, TRUE}
    ensures Modes(Filed(lines, key)) <= {"", "strict", "relaxed"}
  {
    if lines != [] {
      hide EvalRow, Qmins, Inductions, Modes, Nxs;
      RowValues(lines[..|lines| - 1], key);
      var last := lines[|lines| - 1];
      SeenNext(Filed(lines[..|lines| - 1], key), EvalRow(last.meta, last.row).value);
    } else {
      assert Qmins([]) == {} && Inductions([]) == {} && Modes([]) == {};
    }
  }
}
