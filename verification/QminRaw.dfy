// What the merged table says of the rows as they stand in the files, without the evaluation of a row.
module QminRaw {
  import opened QminMerge
  import opened QminPattern
  import opened Text
  import opened Wrappers

  // The row is one of the resolver and protocol, and satisfies p.
  predicate Hit(l: Line, key: string, p: Row -> bool)
  {
    l.meta.protocol + l.row.resolverIp == key && p(l.row)
  }

  // Some row of the resolver and protocol satisfies p.
  ghost predicate SomeRow(lines: seq<Line>, key: string, p: Row -> bool)
  {
    exists l :: l in lines && Hit(l, key, p)
  }

  // The places of the rows of the resolver and protocol that satisfy p.
  ghost function Places(lines: seq<Line>, key: string, p: Row -> bool): set<int>
  {
    set i | 0 <= i < |lines| && Hit(lines[i], key, p)
  }

  // The rows that carry a value of the NXDOMAIN optimisation.
  predicate NxRow(r: Row)
  {
    if r.requestingIp == "NONE" then r.nxCheck && !(r.modeCheck && r.response == "nxdomain")
    else r.nxCheck && !r.modeCheck
  }

  // v is the number of some such row, as an 8-bit signed integer.
  ghost predicate NxSeen(lines: seq<Line>, key: string, v: int)
  {
    -128 <= v < 128 && SomeRow(lines, key, (r: Row) => NxRow(r) && (r.nxOptimization - v) % 256 == 0)
  }

  // ---------- one row ----------

  ghost predicate ModeOf(l: Line)
    requires EvalRow(l.meta, l.row).Some?
  {
    var s, r := EvalRow(l.meta, l.row).value, l.row;
    && (s.mode == "strict" <==> r.requestingIp == "NONE" && r.modeCheck && r.response == "nxdomain")
    && (s.mode == "relaxed" <==> r.requestingIp != "NONE" && r.modeCheck && '|' in r.response)
  }

  lemma RowMode(l: Line)
    requires EvalRow(l.meta, l.row).Some?
    ensures ModeOf(l)
  {
    hide Analyzed;
  }

  // The rows outside the tests for the mode and for NXDOMAIN that have a requesting address.
  predicate Asked(r: Row)
  {
    r.requestingIp != "NONE" && !r.modeCheck && !r.nxCheck
  }

  ghost predicate VerdictsOf(l: Line)
    requires EvalRow(l.meta, l.row).Some?
  {
    var s, r := EvalRow(l.meta, l.row).value, l.row;
    && (s.induction == TRUE <==> Asked(r) && r.inducedCheck && '|' in r.inducedResponse)
    && (s.induction == FALSE <==> Asked(r) && r.inducedCheck && '|' !in r.inducedResponse)
    && (s.qmin == TRUE <==> Asked(r) && !r.inducedCheck && r.requesterParses && '|' in r.response)
    && (s.qmin == FALSE <==> Asked(r) && !r.inducedCheck && r.requesterParses && '|' !in r.response)
  }

  lemma RowVerdicts(l: Line)
    requires EvalRow(l.meta, l.row).Some?
    ensures VerdictsOf(l)
  {
    QminVerdict(l.meta, l.row);
    OneLine(l.row.response);
    hide Analyzed, Split;
  }

  lemma OneLine(s: string)
    ensures |Split(s, '|')| >= 2 <==> '|' in s
  {
    CountSplit(s, '|');
    CountFree(s, '|');
    hide Split, Count;
  }

  lemma RowNx(meta: Metadata, row: Row)
    requires EvalRow(meta, row).Some?
    ensures var v := EvalRow(meta, row).value.nx;
      if NxRow(row) then -128 <= v < 128 && (row.nxOptimization - v) % 256 == 0 else v == NIL
  {
    hide Analyzed;
  }

  lemma RowLists(meta: Metadata, row: Row)
    requires EvalRow(meta, row).Some?
    ensures var s := EvalRow(meta, row).value;
      && s.requesting == (if row.requestingIp == "NONE" then [] else [row.requestingIp])
      && s.queriedIp == row.resolverIp && s.protocol == meta.protocol
      && forall e :: Times(s.errors, e) == (if Failed(row, e) then 1 else 0) && (e in s.errors <==> Failed(row, e))
  {
    hide Analyzed;
  }

  // The query failed with the text e, outside the tests in which that is the awaited answer.
  predicate Failed(r: Row, e: string)
  {
    && r.requestingIp == "NONE" && !(r.modeCheck && r.response == "nxdomain") && !r.nxCheck
    && r.response == e
  }

  // A row stops the program exactly if it tests plain minimisation and its log cannot be read.
  lemma StopsOnlyAt(lines: seq<Line>)
    ensures Process(map[], lines).Some? <==>
      forall l :: l in lines ==>
        var r := l.row;
        !(r.requestingIp != "NONE" && !r.modeCheck && !r.nxCheck && !r.inducedCheck
          && Analyzed(r.response, l.meta.baseURL).Fatal?)
  {
    StopsIff(lines);
    forall i | 0 <= i < |lines|
      ensures EvalRow(lines[i].meta, lines[i].row).Some? <==>
        var r := lines[i].row;
        !(r.requestingIp != "NONE" && !r.modeCheck && !r.nxCheck && !r.inducedCheck
          && Analyzed(r.response, lines[i].meta.baseURL).Fatal?)
    {
      hide Analyzed;
    }
    hide EvalRow, Analyzed, Process;
  }

  // ---------- all rows ----------

  lemma {:induction false} FiledMember(lines: seq<Line>, key: string, s: Summary)
    requires AllEvaluate(lines)
    ensures s in Filed(lines, key) <==>
      exists l :: l in lines && KeyOf(l) == key && Some(s) == EvalRow(l.meta, l.row)
  {
    if lines != [] {
      hide EvalRow, KeyOf;
      var n := |lines| - 1;
      FiledMember(lines[..n], key, s);
      assert lines == lines[..n] + [lines[n]];
    }
  }

  lemma MemberEvaluates(lines: seq<Line>, l: Line)
    requires AllEvaluate(lines) && l in lines
    ensures EvalRow(l.meta, l.row).Some?
  {
    hide EvalRow;
  }

  // If a row satisfies p exactly when its summary satisfies f, some row satisfies p exactly when some
  // filed summary satisfies f.
  lemma SomeFiled(lines: seq<Line>, key: string, p: Row -> bool, f: Summary -> bool)
    requires AllEvaluate(lines)
    requires forall l :: l in lines && EvalRow(l.meta, l.row).Some? ==> (p(l.row) <==> f(EvalRow(l.meta, l.row).value))
    ensures SomeRow(lines, key, p) <==> exists s :: s in Filed(lines, key) && f(s)
  {
    hide EvalRow, AllEvaluate, Filed;
    if SomeRow(lines, key, p) {
      var l :| l in lines && Hit(l, key, p);
      MemberEvaluates(lines, l);
      FiledMember(lines, key, EvalRow(l.meta, l.row).value);
    }
    if s :| s in Filed(lines, key) && f(s) {
      FiledMember(lines, key, s);
      var l :| l in lines && KeyOf(l) == key && Some(s) == EvalRow(l.meta, l.row);
      MemberEvaluates(lines, l);
      assert p(l.row);
    }
  }

  lemma {:induction false} CountPlaces(lines: seq<Line>, key: string, e: string)
    requires AllEvaluate(lines)
    ensures |Filed(lines, key)| == |Places(lines, key, (r: Row) => true)|
    ensures Total(Filed(lines, key), e) == |Places(lines, key, (r: Row) => Failed(r, e))|
  {
    if lines != [] {
      var n := |lines| - 1;
      CountPlaces(lines[..n], key, e);
      PlacesNext(lines, key, (r: Row) => true);
      PlacesNext(lines, key, (r: Row) => Failed(r, e));
      RowLists(lines[n].meta, lines[n].row);
      hide EvalRow, Places, Failed;
      var before := Filed(lines[..n], key);
      assert forall s :: (before + [s])[..|before|] == before;
    }
  }

  lemma PlacesNext(lines: seq<Line>, key: string, p: Row -> bool)
    requires lines != []
    ensures var n := |lines| - 1;
      |Places(lines, key, p)|
        == |Places(lines[..n], key, p)| + if Hit(lines[n], key, p) then 1 else 0
  {
    hide Hit;
    var n := |lines| - 1;
    var before := Places(lines[..n], key, p);
    assert n !in before;
    assert Places(lines, key, p) == before + if Hit(lines[n], key, p) then {n} else {};
  }

  lemma Present(lines: seq<Line>, t: map<string, Summary>, key: string)
    requires Process(map[], lines) == Some(t) && key in t
    ensures AllEvaluate(lines) && Filed(lines, key) != []
  {
    StopsIff(lines);
    TableDescribes(lines, key);
    hide EvalRow, Describes, Process, Filed;
  }

  // The mode: strict from an NXDOMAIN answer in the mode test, relaxed from a bar in the log of one.
  lemma MergedMode(lines: seq<Line>, t: map<string, Summary>, key: string)
    requires Process(map[], lines) == Some(t) && key in t
    ensures var strict :=
           SomeRow(lines, key, (r: Row) => r.requestingIp == "NONE" && r.modeCheck && r.response == "nxdomain");
         var relaxed :=
           SomeRow(lines, key, (r: Row) => r.requestingIp != "NONE" && r.modeCheck && '|' in r.response);
         t[key].mode
           == if strict then (if relaxed then "both" else "strict") else if relaxed then "relaxed" else ""
  {
    Present(lines, t, key);
    UncertainIff(lines, key);
    forall l | l in lines ensures EvalRow(l.meta, l.row).Some? && ModeOf(l) {
      MemberEvaluates(lines, l);
      RowMode(l);
    }
    hide EvalRow, Process, Filed, AllEvaluate;
    SomeFiled(lines, key, (r: Row) => r.requestingIp == "NONE" && r.modeCheck && r.response == "nxdomain",
              (s: Summary) => s.mode == "strict");
    SomeFiled(lines, key, (r: Row) => r.requestingIp != "NONE" && r.modeCheck && '|' in r.response,
              (s: Summary) => s.mode == "relaxed");
  }

  // Plain minimisation, from the rows of no other test whose requesting address is well formed: a log
  // with a bar is a sign of it.
  lemma MergedQmin(lines: seq<Line>, t: map<string, Summary>, key: string)
    requires Process(map[], lines) == Some(t) && key in t
    ensures var yes := SomeRow(lines, key, (r: Row) =>
        Asked(r) && !r.inducedCheck && r.requesterParses && '|' in r.response);
      var no := SomeRow(lines, key, (r: Row) =>
        Asked(r) && !r.inducedCheck && r.requesterParses && '|' !in r.response);
      t[key].qmin
        == if yes then (if no then UNCERTAIN else TRUE) else if no then FALSE else NIL
  {
    Present(lines, t, key);
    UncertainIff(lines, key);
    forall l | l in lines ensures EvalRow(l.meta, l.row).Some? && VerdictsOf(l) {
      MemberEvaluates(lines, l);
      RowVerdicts(l);
    }
    hide EvalRow, Process, Filed, AllEvaluate, Asked;
    SomeFiled(lines, key, (r: Row) => Asked(r) && !r.inducedCheck && r.requesterParses && '|' in r.response,
              (s: Summary) => s.qmin == TRUE);
    SomeFiled(lines, key, (r: Row) => Asked(r) && !r.inducedCheck && r.requesterParses && '|' !in r.response,
              (s: Summary) => s.qmin == FALSE);
  }

  // Induced minimisation, from the rows of its test and their second log.
  lemma MergedInduction(lines: seq<Line>, t: map<string, Summary>, key: string)
    requires Process(map[], lines) == Some(t) && key in t
    ensures var yes := SomeRow(lines, key, (r: Row) => Asked(r) && r.inducedCheck && '|' in r.inducedResponse);
      var no := SomeRow(lines, key, (r: Row) => Asked(r) && r.inducedCheck && '|' !in r.inducedResponse);
      t[key].induction
        == if yes then (if no then UNCERTAIN else TRUE) else if no then FALSE else NIL
  {
    Present(lines, t, key);
    UncertainIff(lines, key);
    forall l | l in lines ensures EvalRow(l.meta, l.row).Some? && VerdictsOf(l) {
      MemberEvaluates(lines, l);
      RowVerdicts(l);
    }
    hide EvalRow, Process, Filed, AllEvaluate, Asked;
    SomeFiled(lines, key, (r: Row) => Asked(r) && r.inducedCheck && '|' in r.inducedResponse,
              (s: Summary) => s.induction == TRUE);
    SomeFiled(lines, key, (r: Row) => Asked(r) && r.inducedCheck && '|' !in r.inducedResponse,
              (s: Summary) => s.induction == FALSE);
  }

  // The value v != NIL of the optimisation occurs in the rows exactly if a filed summary holds it.
  lemma NxFiled(lines: seq<Line>, key: string, v: int)
    requires AllEvaluate(lines) && v != NIL
    ensures NxSeen(lines, key, v) <==> v in Nxs(Filed(lines, key))
  {
    forall l | l in lines
      ensures EvalRow(l.meta, l.row).Some?
      ensures EvalRow(l.meta, l.row).value.nx == v <==>
        -128 <= v < 128 && NxRow(l.row) && (l.row.nxOptimization - v) % 256 == 0
    {
      MemberEvaluates(lines, l);
      RowNx(l.meta, l.row);
      hide EvalRow, NxRow;
    }
    hide EvalRow, Filed, AllEvaluate, NxRow;
    SomeFiled(lines, key, (r: Row) => -128 <= v < 128 && NxRow(r) && (r.nxOptimization - v) % 256 == 0,
              (s: Summary) => s.nx == v);
  }

  // The NXDOMAIN optimisation: NIL if its rows hold nothing else, another value if it is the only one
  // besides NIL, UNCERTAIN if one row holds that or two rows hold different values.
  lemma MergedNx(lines: seq<Line>, t: map<string, Summary>, key: string)
    requires Process(map[], lines) == Some(t) && key in t
    ensures var v := t[key].nx;
      && (v == NIL <==> forall x :: NxSeen(lines, key, x) ==> x == NIL)
      && (v == UNCERTAIN <==>
         || NxSeen(lines, key, UNCERTAIN)
         || exists x, y :: NxSeen(lines, key, x) && NxSeen(lines, key, y) && x != NIL && y != NIL && x != y)
      && (v != NIL && v != UNCERTAIN ==>
         NxSeen(lines, key, v) && forall x :: NxSeen(lines, key, x) ==> x == NIL || x == v)
  {
    Present(lines, t, key);
    UncertainIff(lines, key);
    forall v | v != NIL ensures NxSeen(lines, key, v) <==> v in Nxs(Filed(lines, key)) {
      NxFiled(lines, key, v);
    }
    hide EvalRow, Process, Filed, AllEvaluate, NxSeen, Nxs, TwoWay, Modes, Qmins, Inductions;
  }

  lemma TableLists(lines: seq<Line>, t: map<string, Summary>, key: string, x: string)
    requires Process(map[], lines) == Some(t) && key in t && AllEvaluate(lines)
    ensures var s, rows := t[key], Filed(lines, key);
      && (x in s.requesting <==> x in Requesters(rows)) && s.count == |rows|
      && (x in s.errors <==> x in ErrorNames(rows)) && (x in s.errors ==> s.errors[x] == Total(rows, x))
  {
    TableDescribes(lines, key);
    hide EvalRow, Process, Filed, AllEvaluate, Joined, Qmins, Inductions, Nxs, Modes, Total, Requesters, ErrorNames;
  }

  // The requesting addresses are those of the rows that have one, and the count is the number of rows.
  lemma MergedRequesters(lines: seq<Line>, t: map<string, Summary>, key: string, x: string)
    requires Process(map[], lines) == Some(t) && key in t
    ensures x in t[key].requesting <==> x != "NONE" && SomeRow(lines, key, (r: Row) => r.requestingIp == x)
    ensures t[key].count == |Places(lines, key, (r: Row) => true)|
  {
    Present(lines, t, key);
    TableLists(lines, t, key, x);
    CountPlaces(lines, key, x);
    forall l | l in lines ensures EvalRow(l.meta, l.row).Some? && ListsOf(l.row, EvalRow(l.meta, l.row).value, x) {
      MemberEvaluates(lines, l);
      RowLists(l.meta, l.row);
      hide EvalRow, Failed;
    }
    hide EvalRow, Process, Filed, AllEvaluate, Failed, Places, Total, ErrorNames;
    SomeFiled(lines, key, (r: Row) => r.requestingIp == x && x != "NONE",
              (s: Summary) => |s.requesting| >= 1 && s.requesting[0] == x);
  }

  // An error text is counted once for each row that failed with it.
  lemma MergedErrors(lines: seq<Line>, t: map<string, Summary>, key: string, x: string)
    requires Process(map[], lines) == Some(t) && key in t
    ensures x in t[key].errors <==> SomeRow(lines, key, (r: Row) => Failed(r, x))
    ensures Times(t[key].errors, x) == |Places(lines, key, (r: Row) => Failed(r, x))|
  {
    Present(lines, t, key);
    TableLists(lines, t, key, x);
    CountPlaces(lines, key, x);
    forall l | l in lines ensures EvalRow(l.meta, l.row).Some? && ListsOf(l.row, EvalRow(l.meta, l.row).value, x) {
      MemberEvaluates(lines, l);
      RowLists(l.meta, l.row);
      hide EvalRow, Failed;
    }
    hide EvalRow, Process, Filed, AllEvaluate, Failed, Places, Total, Requesters;
    SomeFiled(lines, key, (r: Row) => Failed(r, x), (s: Summary) => x in s.errors);
    if x !in t[key].errors {
      NeverTotal(Filed(lines, key), x);
    }
  }

  ghost predicate ListsOf(r: Row, s: Summary, x: string)
  {
    && (|s.requesting| >= 1 && s.requesting[0] == x <==> x != "NONE" && r.requestingIp == x)
    && (x in s.errors <==> Failed(r, x))
  }

  lemma SomeRowNext(lines: seq<Line>, key: string, p: Row -> bool)
    requires lines != []
    ensures var n := |lines| - 1;
      SomeRow(lines, key, p) <==> SomeRow(lines[..n], key, p) || Hit(lines[n], key, p)
  {
    hide Hit;
    assert lines == lines[..|lines| - 1] + [lines[|lines| - 1]];
  }

  // Every entry is that of the resolver and protocol of its key, and there is one exactly if a row has it.
  lemma {:induction false} EntryOf(lines: seq<Line>, key: string)
    requires AllEvaluate(lines)
    ensures var t := Process(map[], lines);
      && t.Some?
      && (key in t.value <==> SomeRow(lines, key, (r: Row) => true))
      && (key in t.value ==> t.value[key].protocol + t.value[key].queriedIp == key)
  {
    if lines != [] {
      var n := |lines| - 1;
      EntryOf(lines[..n], key);
      SomeRowNext(lines, key, (r: Row) => true);
      RowLists(lines[n].meta, lines[n].row);
      hide EvalRow, Added, Either, SomeRow;
    }
  }
}
