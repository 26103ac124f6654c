// Induction probes end to end: the name marked "-induction" is redirected to the plain name, what is
// asked for the plain name is logged behind the marked one, and one TXT answer carries both logs.
module QminInduced {
  import opened Text
  import opened QminName
  import opened QminServer
  import opened QminTrack
  import opened QminLog
  import opened QminPattern
  import opened QminPipeline
  import opened Wrappers
  import M = QminMerge

  // ---------- the marked label ----------

  lemma MarkedToken(hex: string, d: nat, nonce: nat)
    ensures ToLower(IdToken(hex, d, nonce, true, false, false))
      == ToLower(IdToken(hex, d, nonce, false, false, false)) + INDUCTION
  {
    var plain := IdToken(hex, d, nonce, false, false, false);
    IdTokenText(hex, d, nonce, false, false, false);
    IdTokenText(hex, d, nonce, true, false, false);
    hide IdToken, ToLower, Itoa, IntText;
    assert IdToken(hex, d, nonce, true, false, false) == plain + INDUCTION;
    LowerConcat(plain, INDUCTION);
    LowerInduction();
  }

  lemma LowerInduction()
    ensures ToLower(INDUCTION) == INDUCTION
  {
  }

  lemma MarkedLabel(id: string)
    requires ProbeLabel(id)
    ensures ProbeLabel(id + INDUCTION) && DepthOf(id + INDUCTION) == DepthOf(id)
    ensures Split(id + INDUCTION, '-') == Split(id, '-') + ["induction"]
    ensures Free(id, '|') ==> Free(id + INDUCTION, '|')
    ensures Free(id, ',') ==> Free(id + INDUCTION, ',')
  {
    hide Split;
    InductionDepth(id);
    SplitConcat(id, "induction", '-');
    SplitFree("induction", '-');
    assert id + "-" + "induction" == id + INDUCTION;
  }

  // ---------- one probe for both labels ----------

  ghost predicate EverCarried(zone: Zone, qs: seq<Query>, id: string)
  {
    exists i :: 0 <= i < |qs| && Carries(zone, qs[i], id)
  }

  // Nobody asks for the plain name before the marked one.
  ghost predicate MarkedFirst(zone: Zone, qs: seq<Query>, id: string)
  {
    forall j :: 0 <= j < |qs| && Carries(zone, qs[j], id) ==> EverCarried(zone, qs[..j], id + INDUCTION)
  }

  ghost predicate NeverCarried(zone: Zone, qs: seq<Query>, id: string)
  {
    forall i :: 0 <= i < |qs| ==> !Carries(zone, qs[i], id)
  }

  lemma CarriedNext(zone: Zone, qs: seq<Query>, id: string)
    requires qs != []
    ensures EverCarried(zone, qs, id) <==> EverCarried(zone, qs[..|qs| - 1], id) || Carries(zone, qs[|qs| - 1], id)
  {
    hide Carries;
    var before := qs[..|qs| - 1];
    assert forall i :: 0 <= i < |before| ==> before[i] == qs[i];
  }

  lemma MarkedFirstPrefix(zone: Zone, qs: seq<Query>, n: nat, id: string)
    requires MarkedFirst(zone, qs, id) && n <= |qs|
    ensures MarkedFirst(zone, qs[..n], id)
    ensures n < |qs| && Carries(zone, qs[n], id) ==> EverCarried(zone, qs[..n], id + INDUCTION)
  {
    hide Carries, EverCarried;
    forall j | 0 <= j < n && Carries(zone, qs[..n][j], id) ensures EverCarried(zone, qs[..n][..j], id + INDUCTION) {
      assert qs[..n][..j] == qs[..j];
    }
  }

  // Then the plain label never gets a probe of its own, and the marked one has the common probe.
  lemma {:induction false} CommonProbe(zone: Zone, qs: seq<Query>, id: string)
    requires MarkedFirst(zone, qs, id) && NeverCarried(zone, qs, id + INDUCTION + INDUCTION)
    ensures id !in Serve(zone, qs)
    ensures EverCarried(zone, qs, id + INDUCTION) ==> id + INDUCTION in Serve(zone, qs)
  {
    if qs != [] {
      var n := |qs| - 1;
      MarkedFirstPrefix(zone, qs, n, id);
      CarriedNext(zone, qs, id + INDUCTION);
      CommonProbe(zone, qs[..n], id);
      ProbesAsked(zone, qs[..n], id + INDUCTION + INDUCTION);
      hide RouteOf, Touched, EverCarried, MarkedFirst;
      CommonNext(zone, Serve(zone, qs[..n]), qs[n], id);
    }
  }

  lemma CommonNext(zone: Zone, probes: map<string, Probe>, q: Query, id: string)
    requires id !in probes && id + INDUCTION + INDUCTION !in probes
    requires Carries(zone, q, id) ==> id + INDUCTION in probes
    ensures id !in Enter(zone, probes, q)
    ensures id + INDUCTION in probes || Carries(zone, q, id + INDUCTION) ==> id + INDUCTION in Enter(zone, probes, q)
  {
    hide RouteOf, Touched;
    var r := RouteOf(zone, q);
    if r.Ask? && r.id + INDUCTION == id + INDUCTION {
      InductionInjective(r.id, id);
    }
  }

  // The traffic, and a last query for the plain name or the marked one.
  ghost predicate Scene(zone: Zone, all: seq<Query>, d: nat, id: string)
  {
    && d >= 1 && ProbeLabel(id) && |Split(id, '-')| == 3 && DepthOf(id) == d && UnderscoreFree(all)
    && TailsOnly(zone, all, d, id) && TailsOnly(zone, all, d, id + INDUCTION)
    && MarkedFirst(zone, all, id) && NeverCarried(zone, all, id + INDUCTION + INDUCTION)
    && EverCarried(zone, all, id + INDUCTION)
  }

  // The probe keeps the account of both names.
  lemma BothAccounts(zone: Zone, all: seq<Query>, d: nat, id: string)
    requires Scene(zone, all, d, id)
    ensures id !in Serve(zone, all) && id + INDUCTION in Serve(zone, all)
    ensures var p := Serve(zone, all)[id + INDUCTION];
      && p.depth == d && p.induction
      && Track(p.log, p.current) == Account(d, id + INDUCTION, Entries(zone, all, id + INDUCTION))
      && Track(p.inducedLog, p.inducedCurrent) == Account(d, id, Entries(zone, all, id))
  {
    MarkedLabel(id);
    CommonProbe(zone, all, id);
    hide Split, Serve, Entries, Account, TailsOnly, EverCarried, MarkedFirst, NeverCarried, ProbeLabel, UnderscoreFree,
      DepthOf;
    ServerAccount(zone, all, d, id);
    ServerAccount(zone, all, d, id + INDUCTION);
    InductionFlag(zone, all, id + INDUCTION);
    DepthRead(zone, all, id + INDUCTION);
  }

  // ---------- replies ----------

  // The full name was asked for, and no TXT query for a shorter name stopped the log before.
  ghost predicate Completed(d: nat, es: seq<Entry>)
  {
    (exists i :: 0 <= i < |es| && es[i].depth == d) && (forall i :: 0 <= i < |es| && Stray(es, i) ==> es[i].depth == d)
  }

  lemma CountsCompleted(zone: Zone, all: seq<Query>, d: nat, id: string)
    requires Scene(zone, all, d, id)
    ensures id + INDUCTION in Serve(zone, all)
    ensures var p := Serve(zone, all)[id + INDUCTION];
      && (p.current == d <==> Completed(d, Entries(zone, all, id + INDUCTION)))
      && (p.inducedCurrent == d <==> Completed(d, Entries(zone, all, id)))
  {
    BothAccounts(zone, all, d, id);
    MarkedLabel(id);
    AccountCompleted(zone, all, d, id);
    AccountCompleted(zone, all, d, id + INDUCTION);
  }

  lemma AccountCompleted(zone: Zone, all: seq<Query>, d: nat, id: string)
    requires d >= 1 && ProbeLabel(id) && TailsOnly(zone, all, d, id) && UnderscoreFree(all)
    ensures Account(d, id, Entries(zone, all, id)).count == d <==> Completed(d, Entries(zone, all, id))
  {
    var es := Entries(zone, all, id);
    EntriesSighted(zone, all, d, id);
    assert IdLabel(id);
    hide ProbeLabel, TailsOnly, UnderscoreFree, Entries, Tails, IdLabel, Stray, Account, Sighted, SawAll;
    LogIsAccount(d, id, es);
    CompletesIff(d, id, es);
  }

  // Where a query for either name is entered.
  lemma CommonTouched(zone: Zone, qs: seq<Query>, q: Query, d: nat, id: string)
    requires Scene(zone, qs + [q], d, id)
    requires Carries(zone, q, id) || Carries(zone, q, id + INDUCTION)
    ensures id + INDUCTION in Serve(zone, qs + [q])
    ensures Touched(Serve(zone, qs), RouteOf(zone, q), q) == Serve(zone, qs + [q])[id + INDUCTION]
  {
    var all := qs + [q];
    assert all[..|qs|] == qs;
    CommonProbe(zone, all, id);
    MarkedFirstPrefix(zone, all, |qs|, id);
    NeverPrefix(zone, all, |qs|, id + INDUCTION + INDUCTION);
    CommonProbe(zone, qs, id);
    ProbesAsked(zone, qs, id + INDUCTION + INDUCTION);
    hide RouteOf, Touched, Scene, MarkedFirst, EverCarried, NeverCarried;
    assert Serve(zone, all) == Enter(zone, Serve(zone, qs), q);
  }

  lemma NeverPrefix(zone: Zone, qs: seq<Query>, n: nat, id: string)
    requires NeverCarried(zone, qs, id) && n <= |qs|
    ensures NeverCarried(zone, qs[..n], id)
  {
    hide Carries;
  }

  // A TXT query for the full plain name is answered with both logs exactly when the plain name is
  // complete; failing that with the log of the marked name if that one is; and else by delegation.
  lemma InducedAnswerIff(zone: Zone, qs: seq<Query>, q: Query, d: nat, id: string)
    requires Scene(zone, qs + [q], d, id) && Asks(zone, q, d, id) && q.qtype == "TXT"
    ensures id + INDUCTION in Serve(zone, qs + [q])
    ensures var p := Serve(zone, qs + [q])[id + INDUCTION];
      Respond(zone, Serve(zone, qs), q) == Reply(NoError,
        [if Completed(d, Entries(zone, qs + [q], id)) then Answer("TXT", BothLogs(p))
         else if Completed(d, Entries(zone, qs + [q], id + INDUCTION)) then Answer("TXT", TxtText(p))
         else Answer("NS", NAME_SERVER)])
  {
    var all := qs + [q];
    assert ProbeLabel(id) && |Split(id, '-')| == 3;
    TailCarries(zone, q, d, id);
    CommonTouched(zone, qs, q, d, id);
    BothAccounts(zone, all, d, id);
    CountsCompleted(zone, all, d, id);
    hide *;
    RespondInduced(zone, q, Serve(zone, all)[id + INDUCTION], Serve(zone, qs));
  }

  lemma RespondInduced(zone: Zone, q: Query, p: Probe, probes: map<string, Probe>)
    requires RouteOf(zone, q).Ask? && |RouteOf(zone, q).meta| == 3 && q.qtype == "TXT"
    requires p == Touched(probes, RouteOf(zone, q), q) && p.induction
    ensures Respond(zone, probes, q) == Reply(NoError,
      [if p.inducedCurrent == p.depth then Answer("TXT", BothLogs(p))
       else if p.current == p.depth then Answer("TXT", TxtText(p))
       else Answer("NS", NAME_SERVER)])
  {
    hide RouteOf, Touched, Join;
  }

  // A query for any tail of the marked name, once the marked name is complete, is redirected to the
  // full plain name, unless it is a TXT query and the plain name is complete as well.
  lemma RedirectIff(zone: Zone, qs: seq<Query>, q: Query, m: nat, d: nat, id: string)
    requires Scene(zone, qs + [q], d, id) && 1 <= m <= d && Asks(zone, q, m, id + INDUCTION)
    ensures id + INDUCTION in Serve(zone, qs + [q])
    ensures var p := Serve(zone, qs + [q])[id + INDUCTION];
      Respond(zone, Serve(zone, qs), q) == Reply(NoError,
        [if q.qtype == "TXT" && Completed(d, Entries(zone, qs + [q], id)) then Answer("TXT", BothLogs(p))
         else if Completed(d, Entries(zone, qs + [q], id + INDUCTION)) then
           Answer("CNAME", Name(d, id) + "." + zone.base)
         else Answer("NS", NAME_SERVER)])
  {
    var all := qs + [q];
    MarkedLabel(id);
    assert ProbeLabel(id + INDUCTION) && |Split(id, '-')| == 3;
    TailRouted(zone, q, m, id + INDUCTION);
    CommonTouched(zone, qs, q, d, id);
    BothAccounts(zone, all, d, id);
    CountsCompleted(zone, all, d, id);
    JoinSplit(id, '-');
    assert Split(id + INDUCTION, '-')[..3] == Split(id, '-');
    hide *;
    RespondMarked(zone, q, Serve(zone, all)[id + INDUCTION], Serve(zone, qs), d, id);
  }

  lemma RespondMarked(zone: Zone, q: Query, p: Probe, probes: map<string, Probe>, d: nat, id: string)
    requires RouteOf(zone, q).Ask? && RouteOf(zone, q).meta == Split(id, '-') + ["induction"] && |Split(id, '-')| == 3
    requires Join(Split(id, '-'), '-') == id
    requires p == Touched(probes, RouteOf(zone, q), q) && p.induction && p.depth == d >= 1
    ensures Respond(zone, probes, q) == Reply(NoError,
      [if q.qtype == "TXT" && p.inducedCurrent == d then Answer("TXT", BothLogs(p))
       else if p.current == d then Answer("CNAME", Name(d, id) + "." + zone.base)
       else Answer("NS", NAME_SERVER)])
  {
    hide RouteOf, Touched, Join, Split, Name;
    assert (Split(id, '-') + ["induction"])[..3] == Split(id, '-');
  }

  // Whoever follows the redirection asks for the full plain name.
  lemma RedirectAsks(zone: Zone, d: nat, id: string, qtype: string, remote: string)
    requires d >= 1 && ToLower(id) == id && ToLower(zone.base) == zone.base
    requires Name(d, id) + "." + zone.base !in zone.records
    ensures Asks(zone, Query(Name(d, id) + "." + zone.base, qtype, remote), d, id)
  {
    hide Name, ToLower;
    LowerName(d, id);
    LowerConcat(Name(d, id) + ".", zone.base);
    LowerConcat(Name(d, id), ".");
    LowerDot();
  }

  // ---------- reading the answer ----------

  lemma {:induction false} InducedSent(zone: Zone, qs: seq<Query>, k: string)
    requires k in Serve(zone, qs)
    ensures Serve(zone, qs)[k].inducedResolver == "" ||
      exists i :: 0 <= i < |qs| && Serve(zone, qs)[k].inducedResolver == Host(qs[i].remote)
  {
    if qs != [] {
      var before := qs[..|qs| - 1];
      var q := qs[|qs| - 1];
      hide Updated, RouteOf, Host;
      if k in Serve(zone, before) {
        InducedSent(zone, before, k);
        if Serve(zone, qs)[k].inducedResolver == Serve(zone, before)[k].inducedResolver {
          assert forall i :: 0 <= i < |before| ==> before[i] == qs[i];
        } else {
          assert Serve(zone, qs)[k].inducedResolver == Host(q.remote);
        }
      }
    }
  }

  lemma InducedReadable(zone: Zone, qs: seq<Query>, k: string)
    requires k in Serve(zone, qs) && PlainQueries(qs)
    ensures Free(Serve(zone, qs)[k].inducedResolver, ',')
  {
    InducedSent(zone, qs, k);
    hide Serve, Split, PlainType;
    if Serve(zone, qs)[k].inducedResolver != "" {
      var i :| 0 <= i < |qs| && Serve(zone, qs)[k].inducedResolver == Host(qs[i].remote);
      FirstPartFree(qs[i].remote, ':', ',');
    }
  }

  lemma BothRead(p: Probe)
    requires Free(p.resolver, ',') && p.resolver != "false" && Free(p.inducedResolver, ',')
    requires Free(Join(p.log, '|'), ',') && Free(Join(p.inducedLog, '|'), ',')
    ensures ReadTxt(BothLogs(p)) == Result(p.resolver, Join(p.log, '|'), p.inducedResolver, Join(p.inducedLog, '|'))
  {
    hide Join, Split;
    FourColumns(p.resolver, Join(p.log, '|'), p.inducedResolver, Join(p.inducedLog, '|'));
    var txt := BothLogs(p);
    assert txt[|p.resolver|] == ',';
    assert ',' in txt;
    assert Split(txt, ',')[0] == p.resolver;
    FourColumns("false", "", "", "");
    assert "false" + "," + "" + "," + "" + "," + "" == "false,,,";
    assert Split("false,,,", ',')[0] == "false";
  }

  // ---------- end to end ----------

  // The log of one name at full depth, TXT having been asked for the full name only.
  lemma AccountLines(zone: Zone, all: seq<Query>, d: nat, id: string)
    requires d >= 1 && ProbeLabel(id) && Free(id, '|') && Free(id, ',')
    requires TailsOnly(zone, all, d, id) && PlainQueries(all)
    requires EverCarried(zone, all, id) && TxtOnlyAtFullDepth(d, Entries(zone, all, id))
    ensures var es := Entries(zone, all, id);
      && Rising(Maxima(es)) && LogShape(d, id, Maxima(es), FirstStray(es) < |es|)
      && Account(d, id, es).log == LogLines(d, id, Maxima(es), FirstStray(es) < |es|)
  {
    var es := Entries(zone, all, id);
    QueriesUnderscoreFree(all);
    EntriesSighted(zone, all, d, id);
    EntriesPlain(zone, all, id);
    EntriesSome(zone, all, id);
    hide ProbeLabel, TailsOnly, PlainQueries, TxtOnlyAtFullDepth, Entries, Rendered, Maxima, Deepest, LogShape, Stray,
      FirstStray, Free, Tails, PlainTypes, Rising;
    AccountFrom(d, id, es);
    LogShaped(d, id, es);
  }

  lemma {:induction false} EntriesSome(zone: Zone, qs: seq<Query>, id: string)
    requires EverCarried(zone, qs, id)
    ensures Entries(zone, qs, id) != []
  {
    if qs != [] {
      hide RouteOf;
      CarriedNext(zone, qs, id);
      if !Carries(zone, qs[|qs| - 1], id) {
        EntriesSome(zone, qs[..|qs| - 1], id);
      }
    }
  }

  // Lines without a bar: their joint text holds a bar exactly when there are two or more.
  lemma BarIff(log: seq<string>)
    requires log != [] && forall i :: 0 <= i < |log| ==> Free(log[i], '|')
    ensures '|' in Join(log, '|') <==> |log| >= 2
  {
    SplitJoin(log, '|');
    CountSplit(Join(log, '|'), '|');
    CountFree(Join(log, '|'), '|');
  }

  // The row that the scanner stores for an induction probe is merged as an induced verdict: positive
  // exactly when the log has two or more lines.
  lemma InducedVerdict(meta: M.Metadata, row: M.Row, d: nat, id: string, ms: seq<Entry>, extra: bool)
    requires d >= 1 && Rising(ms) && LogShape(d, id, ms, extra)
    requires row.inducedCheck && !row.modeCheck && !row.nxCheck && row.requestingIp != "NONE"
    requires row.inducedResponse == Join(LogLines(d, id, ms, extra), '|')
    ensures var s := M.EvalRow(meta, row);
      s.Some? && s.value.induction == if |LogEntries(d, ms, extra)| >= 2 then M.TRUE else M.FALSE
  {
    LogSome(d, id, ms, extra);
    LinesFree(d, id, ms, extra, '|');
    hide LogLines, LogShape, Rising, Join, Analyzed;
    BarIff(LogLines(d, id, ms, extra));
  }

  lemma LogSome(d: nat, id: string, ms: seq<Entry>, extra: bool)
    requires LogShape(d, id, ms, extra)
    ensures |LogEntries(d, ms, extra)| >= 1
  {
    hide PlainTypes, IdLabel, Rising;
  }

  // The resolver asks for tails of the marked name and then, following the redirection, of the plain
  // one, TXT only for full names, among any other traffic. When it asks for the full plain name the
  // answer carries both logs, and the scanner reads both back out of it.
  lemma InductionScan(zone: Zone, hex: string, d: nat, nonce: nat, qs: seq<Query>, q: Query)
    requires 1 <= d <= MAX_INT && PlainHex(hex) && |hex| + |Itoa(d)| + |Itoa(nonce)| >= 8 && PlainQueries(qs + [q])
    requires var id := ToLower(IdToken(hex, d, nonce, false, false, false));
      var marked := ToLower(IdToken(hex, d, nonce, true, false, false));
      && TailsOnly(zone, qs + [q], d, id) && TailsOnly(zone, qs + [q], d, marked)
      && MarkedFirst(zone, qs + [q], id) && NeverCarried(zone, qs + [q], marked + INDUCTION)
      && TxtOnlyAtFullDepth(d, Entries(zone, qs + [q], id))
      && TxtOnlyAtFullDepth(d, Entries(zone, qs + [q], marked))
      && Asks(zone, q, d, id) && q.qtype == "TXT"
    ensures var id := ToLower(IdToken(hex, d, nonce, false, false, false));
      var marked := ToLower(IdToken(hex, d, nonce, true, false, false));
      var es, ms := Entries(zone, qs + [q], id), Entries(zone, qs + [q], marked);
      marked in Serve(zone, qs + [q]) && Rising(Maxima(es)) && Rising(Maxima(ms)) &&
      var p := Serve(zone, qs + [q])[marked];
      && Respond(zone, Serve(zone, qs), q) == Reply(NoError, [Answer("TXT", BothLogs(p))])
      && ReadTxt(BothLogs(p)) == Result(
           p.resolver, Join(LogLines(d, marked, Maxima(ms), FirstStray(ms) < |ms|), '|'),
           p.inducedResolver, Join(LogLines(d, id, Maxima(es), FirstStray(es) < |es|), '|'))
  {
    var id := ToLower(IdToken(hex, d, nonce, false, false, false));
    PlainLabel(hex, d, nonce);
    PlainLabelFree(hex, d, nonce);
    MarkedToken(hex, d, nonce);
    assert ProbeLabel(id);
    hide *;
    InductionAnswered(zone, qs, q, d, id);
  }

  lemma InductionAnswered(zone: Zone, qs: seq<Query>, q: Query, d: nat, id: string)
    requires d >= 1 && ProbeLabel(id) && |Split(id, '-')| == 3 && DepthOf(id) == d && Free(id, '|') && Free(id, ',')
    requires PlainQueries(qs + [q]) && Asks(zone, q, d, id) && q.qtype == "TXT"
    requires TailsOnly(zone, qs + [q], d, id) && TailsOnly(zone, qs + [q], d, id + INDUCTION)
    requires MarkedFirst(zone, qs + [q], id) && NeverCarried(zone, qs + [q], id + INDUCTION + INDUCTION)
    requires TxtOnlyAtFullDepth(d, Entries(zone, qs + [q], id))
    requires TxtOnlyAtFullDepth(d, Entries(zone, qs + [q], id + INDUCTION))
    ensures var es, ms := Entries(zone, qs + [q], id), Entries(zone, qs + [q], id + INDUCTION);
      id + INDUCTION in Serve(zone, qs + [q]) && Rising(Maxima(es)) && Rising(Maxima(ms)) &&
      var p := Serve(zone, qs + [q])[id + INDUCTION];
      && Respond(zone, Serve(zone, qs), q) == Reply(NoError, [Answer("TXT", BothLogs(p))])
      && ReadTxt(BothLogs(p)) == Result(
           p.resolver, Join(LogLines(d, id + INDUCTION, Maxima(ms), FirstStray(ms) < |ms|), '|'),
           p.inducedResolver, Join(LogLines(d, id, Maxima(es), FirstStray(es) < |es|), '|'))
  {
    var all := qs + [q];
    var marked := id + INDUCTION;
    var es, ms := Entries(zone, all, id), Entries(zone, all, marked);
    hide *;
    TailCarries(zone, q, d, id);
    BothCarried(zone, qs, q, id);
    QueriesUnderscoreFree(all);
    SceneSet(zone, all, d, id);
    MarkedLabel(id);
    BothAccounts(zone, all, d, id);
    AccountLines(zone, all, d, id);
    AccountLines(zone, all, d, marked);
    FullNameCompletes(zone, qs, q, d, id);
    InducedAnswerIff(zone, qs, q, d, id);
    ResolverReadable(zone, all, marked);
    InducedReadable(zone, all, marked);
    LinesJoinFree(d, id, Maxima(es), FirstStray(es) < |es|);
    LinesJoinFree(d, marked, Maxima(ms), FirstStray(ms) < |ms|);
    BothRead(Serve(zone, all)[marked]);
  }

  lemma SceneSet(zone: Zone, all: seq<Query>, d: nat, id: string)
    requires d >= 1 && ProbeLabel(id) && |Split(id, '-')| == 3 && DepthOf(id) == d && UnderscoreFree(all)
    requires TailsOnly(zone, all, d, id) && TailsOnly(zone, all, d, id + INDUCTION)
    requires MarkedFirst(zone, all, id) && NeverCarried(zone, all, id + INDUCTION + INDUCTION)
    requires EverCarried(zone, all, id + INDUCTION)
    ensures Scene(zone, all, d, id)
  {
    hide ProbeLabel, Split, DepthOf, UnderscoreFree, TailsOnly, MarkedFirst, NeverCarried, EverCarried;
  }

  lemma BothCarried(zone: Zone, qs: seq<Query>, q: Query, id: string)
    requires MarkedFirst(zone, qs + [q], id) && Carries(zone, q, id)
    ensures EverCarried(zone, qs + [q], id) && EverCarried(zone, qs + [q], id + INDUCTION)
  {
    hide Carries;
    var all := qs + [q];
    assert all[..|qs|] == qs && all[|qs|] == q;
    assert EverCarried(zone, all[..|qs|], id + INDUCTION);
    var i :| 0 <= i < |qs| && Carries(zone, all[..|qs|][i], id + INDUCTION);
    assert Carries(zone, all[i], id + INDUCTION);
  }

  lemma FullNameCompletes(zone: Zone, qs: seq<Query>, q: Query, d: nat, id: string)
    requires d >= 1 && ProbeLabel(id) && Asks(zone, q, d, id) && TxtOnlyAtFullDepth(d, Entries(zone, qs + [q], id))
    ensures Completed(d, Entries(zone, qs + [q], id))
  {
    hide Asks, ProbeLabel, Stray, TxtOnlyAtFullDepth, Entries;
    LastEntry(zone, qs, q, d, id);
    var es := Entries(zone, qs + [q], id);
    assert es[|es| - 1].depth == d;
    StraysAllFull(d, es);
  }
}
