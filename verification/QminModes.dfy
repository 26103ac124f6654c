// The two tests whose labels are answered with NXDOMAIN: what a scanner sees of a resolver that stops
// there, of one that goes on, and of one that asks for the whole name at once.
module QminModes {
  import opened Text
  import opened QminName
  import opened QminServer
  import opened QminTrack
  import opened QminLog
  import opened QminPattern
  import opened QminPipeline
  import opened QminInduced
  import opened Wrappers
  import M = QminMerge

  // ---------- what the scanner makes of an answer ----------

  const SUCCESS := 0
  const SERV_FAIL := 2
  const NAME_ERROR := 3
  const REFUSED := 5

  datatype Seen = Seen(requestingIp: string, status: int, response: string, inducedResponse: string)

  function Nobody(status: int, response: string): Seen
  {
    Seen("NONE", status, response, "")
  }

  function TxtSeen(txt: string): Seen
  {
    match ReadTxt(txt)
    case Unhandled => Nobody(-1, "unhandledError")
    case Result(requester, response, _, induced) => Seen(requester, 0, response, induced)
  }

  function FirstTxt(answers: seq<Answer>): Option<string>
  {
    if answers == [] then None
    else if answers[0].rtype == "TXT" then Some(answers[0].value)
    else FirstTxt(answers[1..])
  }

  function SeenOf(rcode: int, answers: seq<Answer>, recursionAvailable: bool): Seen
  {
    if rcode == SERV_FAIL then Nobody(2, "servfail")
    else if rcode == NAME_ERROR then Nobody(4, "nxdomain")
    else if rcode == REFUSED then Nobody(1, "refused")
    else if rcode != SUCCESS then Nobody(-1, "unhandledError")
    else if answers == [] then if recursionAvailable then Nobody(7, "noAnswer") else Nobody(6, "noRecursion")
    else if FirstTxt(answers).Some? then TxtSeen(FirstTxt(answers).value)
    else Nobody(9, "noTXTResponse")
  }

  method DnsQuery(rcode: int, answers: seq<Answer>, recursionAvailable: bool) returns (r: Seen)
    ensures r == SeenOf(rcode, answers, recursionAvailable)
  {
    hide ReadTxt;
    if rcode != SUCCESS {
      if rcode == SERV_FAIL {
        return Nobody(2, "servfail");
      } else if rcode == NAME_ERROR {
        return Nobody(4, "nxdomain");
      } else if rcode == REFUSED {
        return Nobody(1, "refused");
      }
      return Nobody(-1, "unhandledError");
    }
    if |answers| == 0 {
      if !recursionAvailable {
        return Nobody(6, "noRecursion");
      }
      return Nobody(7, "noAnswer");
    }
    for i := 0 to |answers|
      invariant FirstTxt(answers) == FirstTxt(answers[i..])
    {
      if answers[i].rtype == "TXT" {
        return TxtSeen(answers[i].value);
      }
      assert answers[i..][1..] == answers[i + 1..];
    }
    return Nobody(9, "noTXTResponse");
  }

  // The test for NXDOMAIN optimisation: first is what the scanner saw of the name "a.…", second what it
  // saw, or would see, of "b.…". What it stores and with which value.
  function NxOptiRoutine(first: Seen, second: Seen): (Seen, int)
  {
    if first.status != 4 then (first, -1)
    else if second.status != 4 && second.status != 0 then (first, -1)
    else if second.status == 4 then (second, 1)
    else (second, 0)
  }

  function RcodeNumber(r: Rcode): int
  {
    match r
    case NoError => SUCCESS
    case NxDomain => NAME_ERROR
    case Refused => REFUSED
  }

  // A resolver hands the server's reply on.
  function Relayed(r: Reply): Seen
  {
    SeenOf(RcodeNumber(r.rcode), r.answers, true)
  }

  // ---------- labels marked "-nxopti" ----------

  // In every reachable state, whatever came before: the answer "false" exactly for names that begin
  // with a small b, and NXDOMAIN for the others.
  lemma NxoptiAnswered(zone: Zone, qs: seq<Query>, q: Query)
    requires RouteOf(zone, q).Ask? && |RouteOf(zone, q).meta| > 3 && RouteOf(zone, q).meta[3] == "nxopti"
    ensures |q.name| > 0
    ensures Respond(zone, Serve(zone, qs), q) ==
      if q.name[0] == 'b' then Reply(NoError, [Answer("TXT", "false,,,")]) else Reply(NxDomain, [])
  {
    NxoptiUnmarked(zone, qs, q);
    hide *;
    RespondNxopti(zone, q, Touched(Serve(zone, qs), RouteOf(zone, q), q), Serve(zone, qs));
  }

  lemma NxoptiUnmarked(zone: Zone, qs: seq<Query>, q: Query)
    requires RouteOf(zone, q).Ask? && |RouteOf(zone, q).meta| > 3 && RouteOf(zone, q).meta[3] == "nxopti"
    ensures !Touched(Serve(zone, qs), RouteOf(zone, q), q).induction
  {
    var r := RouteOf(zone, q);
    MarkBehind(r.id);
    assert r.meta == Split(r.id, '-');
    var probes := Serve(zone, qs);
    hide Split, RouteOf, Updated, Serve, Host;
    if r.id in probes {
      InductionFlag(zone, qs, r.id);
    } else if r.id + INDUCTION in probes {
      InductionFlag(zone, qs, r.id + INDUCTION);
    }
  }

  lemma MarkBehind(id: string)
    ensures Split(id + INDUCTION, '-') == Split(id, '-') + Split("induction", '-')
  {
    SplitConcat(id, "induction", '-');
    hide Split;
    assert id + "-" + "induction" == id + INDUCTION;
  }

  lemma RespondNxopti(zone: Zone, q: Query, p: Probe, probes: map<string, Probe>)
    requires RouteOf(zone, q).Ask? && |RouteOf(zone, q).meta| > 3 && RouteOf(zone, q).meta[3] == "nxopti"
    requires p == Touched(probes, RouteOf(zone, q), q) && !p.induction
    ensures |q.name| > 0
    ensures Respond(zone, probes, q) ==
      if q.name[0] == 'b' then Reply(NoError, [Answer("TXT", "false,,,")]) else Reply(NxDomain, [])
  {
    hide RouteOf, Touched, InducedTarget, BothLogs, Join;
  }

  // A name with one label in front of the id label.
  lemma HostRouted(zone: Zone, q: Query, host: string, id: string)
    requires ProbeLabel(id) && Free(host, '.') && host != "" && host[0] != '_'
    requires ToLower(q.name) == host + "." + id + "." + zone.base
    requires !(ToLower(q.name) in zone.records && zone.records[ToLower(q.name)].qtype == q.qtype)
    ensures RouteOf(zone, q).Ask? && RouteOf(zone, q).meta == Split(id, '-')
  {
    SplitAt(host, '.', id);
    SplitFree(id, '.');
    hide *;
    HostFirst(host, id + "." + zone.base);
    assert host + "." + id == host + ['.'] + id;
    assert host + "." + (id + "." + zone.base) == (host + "." + id) + "." + zone.base;
    LongLabel(id);
    Routed(zone, q, host + "." + id, [host, id]);
  }

  lemma LongLabel(id: string)
    requires ProbeLabel(id)
    ensures |id| >= 10 && |Split(id, '-')| >= 3
  {
    hide Split;
  }

  lemma HostFirst(host: string, rest: string)
    requires host != "" && host[0] != '_'
    ensures WithoutUnderscore(host + "." + rest) == host + "." + rest
  {
    var name := host + "." + rest;
    assert name[0] == host[0];
    assert |name| > 2 ==> name[..2][0] == host[0];
  }

  lemma Routed(zone: Zone, q: Query, tokenSeq: string, tokens: seq<string>)
    requires !(ToLower(q.name) in zone.records && zone.records[ToLower(q.name)].qtype == q.qtype)
    requires WithoutUnderscore(ToLower(q.name)) == tokenSeq + "." + zone.base
    requires Split(tokenSeq, '.') == tokens && |tokens[|tokens| - 1]| >= 10 && |Split(tokens[|tokens| - 1], '-')| >= 3
    ensures RouteOf(zone, q) == Ask(tokens[|tokens| - 1], tokenSeq, tokens, Split(tokens[|tokens| - 1], '-'))
  {
    var name := tokenSeq + "." + zone.base;
    assert name[|name| - |zone.base|..] == zone.base;
    assert name[..|name| - |zone.base| - 1] == tokenSeq;
    hide Split, ToLower, WithoutUnderscore;
  }

  // The names of the test and of the label they share, asked for in any three reachable states.
  ghost predicate NxTest(zone: Zone, hex: string, nonce: nat, baseDomain: string, q0: Query, qa: Query, qb: Query)
  {
    && Free(hex, '-') && Free(hex, '.') && Free(hex, '_') && ToLower(baseDomain) == zone.base
    && q0.name == IdToken(hex, 1, nonce, false, false, true) + "." + baseDomain
    && qa.name == "a." + q0.name && qb.name == "b." + q0.name
    && ToLower(q0.name) !in zone.records && ToLower(qa.name) !in zone.records && ToLower(qb.name) !in zone.records
  }

  lemma LowerMarks()
    ensures ToLower("nxopti") == "nxopti" && ToLower("qminMode") == "qminmode"
  {
  }

  lemma NxLabel(hex: string, nonce: nat)
    requires Free(hex, '-') && Free(hex, '.') && Free(hex, '_')
    ensures var token := IdToken(hex, 1, nonce, false, false, true);
      && ProbeLabel(ToLower(token)) && |Split(ToLower(token), '-')| == 4 && Split(ToLower(token), '-')[3] == "nxopti"
      && token != "" && (token[0] == 'b' <==> hex != "" && hex[0] == 'b')
  {
    IdTokenRead(hex, 1, nonce, false, false, true);
    IdTokenText(hex, 1, nonce, false, false, true);
    LowerMarks();
    hide Split, Itoa, ParseIntValue, ToLower, IdToken;
    DashInside(IdToken(hex, 1, nonce, false, false, true));
  }

  // The replies, whatever was asked before each: the shared label is refused as non-existent unless
  // the hexadecimal part begins with a small b; "a.…" always is; "b.…" is always answered.
  lemma NxReplies(zone: Zone, hex: string, nonce: nat, baseDomain: string, q0: Query, qa: Query, qb: Query,
                  h0: seq<Query>, ha: seq<Query>, hb: seq<Query>)
    requires NxTest(zone, hex, nonce, baseDomain, q0, qa, qb)
    ensures Respond(zone, Serve(zone, h0), q0) ==
      if hex != "" && hex[0] == 'b' then Reply(NoError, [Answer("TXT", "false,,,")]) else Reply(NxDomain, [])
    ensures Respond(zone, Serve(zone, ha), qa) == Reply(NxDomain, [])
    ensures Respond(zone, Serve(zone, hb), qb) == Reply(NoError, [Answer("TXT", "false,,,")])
  {
    var token := IdToken(hex, 1, nonce, false, false, true);
    var id := ToLower(token);
    NxLabel(hex, nonce);
    NxNames(zone, token, baseDomain, q0, qa, qb);
    hide IdToken, ToLower, Split, RouteOf, Respond, Serve, Name;
    NameOne(id);
    TailRouted(zone, q0, 1, id);
    HostRouted(zone, qa, "a", id);
    HostRouted(zone, qb, "b", id);
    NxoptiAnswered(zone, h0, q0);
    NxoptiAnswered(zone, ha, qa);
    NxoptiAnswered(zone, hb, qb);
  }

  lemma NxNames(zone: Zone, token: string, baseDomain: string, q0: Query, qa: Query, qb: Query)
    requires ToLower(baseDomain) == zone.base && token != ""
    requires q0.name == token + "." + baseDomain && qa.name == "a." + q0.name && qb.name == "b." + q0.name
    ensures ToLower(q0.name) == ToLower(token) + "." + zone.base
    ensures ToLower(qa.name) == "a" + "." + ToLower(token) + "." + zone.base
    ensures ToLower(qb.name) == "b" + "." + ToLower(token) + "." + zone.base
    ensures q0.name[0] == token[0] && qa.name[0] == 'a' && qb.name[0] == 'b'
  {
    LowerConcat(token + ".", baseDomain);
    LowerConcat(token, ".");
    LowerConcat("a.", q0.name);
    LowerConcat("b.", q0.name);
    LowerHosts();
    hide ToLower;
  }

  lemma LowerHosts()
    ensures ToLower(".") == "." && ToLower("a.") == "a." && ToLower("b.") == "b."
  {
  }

  // The row stored by the test, and a resolver that takes NXDOMAIN for the shorter name as the answer
  // for the longer one, or that does not ask for the shorter one.
  function NxRow(resolverIp: string, stored: (Seen, int), parses: bool): M.Row
  {
    M.Row(resolverIp, stored.0.requestingIp, stored.0.response, false, stored.0.inducedResponse, false, true, stored.1,
          parses)
  }

  function Cut(shorter: Reply, longer: Reply): Reply
  {
    if shorter.rcode.NxDomain? then shorter else longer
  }

  // The verdict: a resolver that cuts at NXDOMAIN is reported as optimising exactly when its
  // hexadecimal address does not begin with a small b, and every other one as not optimising.
  lemma NxVerdictIff(zone: Zone, hex: string, nonce: nat, baseDomain: string, q0: Query, qa: Query, qb: Query,
                     h0: seq<Query>, ha: seq<Query>, hb: seq<Query>, meta: M.Metadata, ip: string, parses: bool)
    requires NxTest(zone, hex, nonce, baseDomain, q0, qa, qb)
    ensures var r0, ra, rb :=
        Respond(zone, Serve(zone, h0), q0), Respond(zone, Serve(zone, ha), qa), Respond(zone, Serve(zone, hb), qb);
      var cutting := M.EvalRow(meta, NxRow(ip, NxOptiRoutine(Relayed(Cut(r0, ra)), Relayed(Cut(r0, rb))), parses));
      var other := M.EvalRow(meta, NxRow(ip, NxOptiRoutine(Relayed(ra), Relayed(rb)), parses));
      && cutting.Some? && cutting.value.nx == (if hex != "" && hex[0] == 'b' then M.FALSE else M.TRUE)
      && other.Some? && other.value.nx == M.FALSE
  {
    NxReplies(zone, hex, nonce, baseDomain, q0, qa, qb, h0, ha, hb);
    FalseRead();
    hide Respond, Serve, NxTest, SeenOf, M.EvalRow;
    var no, yes := Reply(NxDomain, []), Reply(NoError, [Answer("TXT", "false,,,")]);
    ReadsNxdomain();
    assert Relayed(no) == Nobody(4, "nxdomain") && Relayed(yes) == Nobody(0, "false");
    NxRowMerged(meta, ip, Nobody(4, "nxdomain"), 1, parses);
    NxRowMerged(meta, ip, Nobody(0, "false"), 0, parses);
  }

  lemma ReadsNxdomain()
    ensures SeenOf(NAME_ERROR, [], true) == Nobody(4, "nxdomain")
  {
  }

  lemma NxRowMerged(meta: M.Metadata, ip: string, seen: Seen, v: int, parses: bool)
    requires seen.requestingIp == "NONE" && -1 <= v <= 1
    ensures var s := M.EvalRow(meta, NxRow(ip, (seen, v), parses)); s.Some? && s.value.nx == v
  {
    hide Analyzed;
  }

  lemma FalseRead()
    ensures SeenOf(SUCCESS, [Answer("TXT", "false,,,")], true) == Nobody(0, "false")
  {
    FourColumns("false", "", "", "");
    assert "false" + "," + "" + "," + "" + "," + "" == "false,,,";
    assert Split("false,,,", ',')[0] == "false";
    hide Split;
    assert "false,,,"[5] == ',';
  }

  // ---------- labels marked "-qminMode" ----------

  ghost predicate ModeLabel(id: string)
  {
    |Split(id, '-')| == 4 && Split(id, '-')[3] == "qminmode"
  }

  lemma ModeToken(hex: string, d: nat, nonce: nat)
    requires Free(hex, '-') && Free(hex, '.') && Free(hex, '_') && d <= MAX_INT
    ensures var id := ToLower(IdToken(hex, d, nonce, false, true, false));
      ProbeLabel(id) && ModeLabel(id) && DepthOf(id) == d
  {
    IdTokenRead(hex, d, nonce, false, true, false);
    LowerMarks();
    hide Split, Itoa, ParseIntValue, ToLower, IdToken;
    DashInside(IdToken(hex, d, nonce, false, true, false));
  }

  lemma OwnTouched(zone: Zone, qs: seq<Query>, q: Query, id: string)
    requires Carries(zone, q, id) && NeverCarried(zone, qs + [q], id + INDUCTION)
    ensures id in Serve(zone, qs + [q])
    ensures var p := Serve(zone, qs + [q])[id];
      && Tracked(Serve(zone, qs + [q]), id) == Track(p.log, p.current)
      && Touched(Serve(zone, qs), RouteOf(zone, q), q) == p
  {
    NeverPrefix(zone, qs + [q], |qs|, id + INDUCTION);
    assert (qs + [q])[..|qs|] == qs;
    ProbesAsked(zone, qs, id + INDUCTION);
    hide RouteOf, Touched;
  }

  // In every reachable state a query for any tail of the name is answered with NXDOMAIN until the full
  // name is recorded as complete; from then on TXT brings the log, and other types nothing.
  lemma ModeReply(zone: Zone, qs: seq<Query>, q: Query, m: nat, d: nat, id: string)
    requires d >= 1 && ProbeLabel(id) && ModeLabel(id) && DepthOf(id) == d && 1 <= m <= d && Asks(zone, q, m, id)
    requires TailsOnly(zone, qs + [q], d, id) && UnderscoreFree(qs + [q])
    requires NeverCarried(zone, qs + [q], id + INDUCTION)
    ensures id in Serve(zone, qs + [q])
    ensures Respond(zone, Serve(zone, qs), q) ==
      if !Completed(d, Entries(zone, qs + [q], id)) then Reply(NxDomain, [])
      else Reply(NoError, if q.qtype == "TXT" then [Answer("TXT", TxtText(Serve(zone, qs + [q])[id]))] else [])
  {
    var all := qs + [q];
    TailRouted(zone, q, m, id);
    assert RouteOf(zone, q).meta == Split(id, '-');
    hide Asks, TailsOnly, UnderscoreFree, NeverCarried, Entries, Split, RouteOf, Respond, Completed, ProbeLabel;
    OwnTouched(zone, qs, q, id);
    ServerAccount(zone, all, d, id);
    AccountCompleted(zone, all, d, id);
    DepthRead(zone, all, id);
    InductionFlag(zone, all, id);
    hide Serve, Account, Touched, Tracked, DepthOf;
    RespondMode(zone, q, Serve(zone, all)[id], Serve(zone, qs));
  }

  lemma RespondMode(zone: Zone, q: Query, p: Probe, probes: map<string, Probe>)
    requires RouteOf(zone, q).Ask? && |RouteOf(zone, q).meta| == 4 && RouteOf(zone, q).meta[3] == "qminmode"
    requires p == Touched(probes, RouteOf(zone, q), q) && !p.induction
    ensures Respond(zone, probes, q) ==
      if p.current != p.depth then Reply(NxDomain, [])
      else Reply(NoError, if q.qtype == "TXT" then [Answer("TXT", TxtText(p))] else [])
  {
    hide RouteOf, Touched, Join;
  }

  // ---------- one line or more ----------

  lemma {:induction false} MaximaFirst(es: seq<Entry>)
    requires es != [] && es[0].depth >= 1
    ensures Maxima(es) != [] && Maxima(es)[0] == es[0]
  {
    if |es| > 1 {
      MaximaFirst(es[..|es| - 1]);
    } else {
      assert es[..0] == [] && Deepest([]) == 0 && Maxima([]) == [];
    }
  }

  lemma FullFirst(d: nat, es: seq<Entry>, n: nat)
    requires d >= 1 && Tails(d, es) && 1 <= n <= |es| && es[0].depth == d
    ensures Maxima(es[..n]) == [es[0]] && Deepest(es[..n]) == d
  {
    var one := es[..1];
    assert one == [es[0]] && one[..0] == [];
    assert Maxima(one) == [es[0]] && Deepest(one) == d;
    assert es[..n][..1] == one;
    NothingDeeper(es[..n], 1);
  }

  // A log that ends with the TXT query for the full name has two or more lines exactly when that query
  // was not also the first.
  lemma LinesIff(d: nat, es: seq<Entry>)
    requires d >= 1 && Tails(d, es) && es != [] && TxtOnlyAtFullDepth(d, es)
    requires es[|es| - 1] == Entry(d, "TXT")
    ensures |LogEntries(d, Maxima(es), FirstStray(es) < |es|)| >= 2 <==> es[0] != Entry(d, "TXT")
  {
    var n := |es| - 1;
    assert es[..|es|] == es;
    FirstStrayExact(es);
    MaximaRise(es);
    MaximaFirst(es);
    if es[0].depth == d {
      FullFirst(d, es, |es|);
      if es[0].qtype == "TXT" {
        NoStray(d, es);
      } else {
        FullFirst(d, es, n);
        assert Stray(es, n);
      }
    } else {
      FullAtEnd(d, es);
      assert Last(Maxima(es)).depth == d;
    }
  }

  lemma FullAtEnd(d: nat, es: seq<Entry>)
    requires Tails(d, es) && es != [] && es[|es| - 1].depth == d
    ensures Deepest(es) == d
  {
    DeepestBound(d, es);
  }

  lemma NoStray(d: nat, es: seq<Entry>)
    requires d >= 1 && Tails(d, es) && es != [] && es[0] == Entry(d, "TXT")
    ensures FirstStray(es) == |es|
  {
    FirstStrayExact(es);
    var i := FirstStray(es);
    if 1 <= i < |es| {
      FullFirst(d, es, i);
    }
  }

  // ---------- end to end ----------

  // As long as nobody asked for the full name, every query is answered with NXDOMAIN; a resolver that
  // gives up there is stored as "nxdomain" and merged as strict.
  lemma StrictSeen(zone: Zone, hex: string, d: nat, nonce: nat, qs: seq<Query>, q: Query, m: nat,
                   meta: M.Metadata, row: M.Row)
    requires Free(hex, '-') && Free(hex, '.') && Free(hex, '_') && 1 <= m < d <= MAX_INT
    requires var id := ToLower(IdToken(hex, d, nonce, false, true, false));
      && TailsOnly(zone, qs + [q], d, id) && UnderscoreFree(qs + [q]) && NeverCarried(zone, qs + [q], id + INDUCTION)
      && Asks(zone, q, m, id)
      && forall e :: e in Entries(zone, qs + [q], id) ==> e.depth < d
    requires var seen := Relayed(Respond(zone, Serve(zone, qs), q));
      row.modeCheck && row.requestingIp == seen.requestingIp && row.response == seen.response
    ensures Respond(zone, Serve(zone, qs), q) == Reply(NxDomain, [])
    ensures M.EvalRow(meta, row).Some? && M.EvalRow(meta, row).value.mode == "strict"
  {
    var id := ToLower(IdToken(hex, d, nonce, false, true, false));
    ModeToken(hex, d, nonce);
    var es := Entries(zone, qs + [q], id);
    assert !Completed(d, es) by {
      hide *;
      NotFull(d, es);
    }
    hide IdToken, ToLower, Asks, TailsOnly, UnderscoreFree, NeverCarried, Completed, Respond, Serve, ModeLabel,
      ProbeLabel, DepthOf, Entries, Itoa;
    ModeReply(zone, qs, q, m, d, id);
    hide SeenOf, Analyzed;
    ReadsNxdomain();
  }

  lemma NotFull(d: nat, es: seq<Entry>)
    requires forall e :: e in es ==> e.depth < d
    ensures !Completed(d, es)
  {
  }

  lemma ModeTokenFree(hex: string, d: nat, nonce: nat)
    requires PlainHex(hex)
    ensures var id := ToLower(IdToken(hex, d, nonce, false, true, false)); Free(id, '|') && Free(id, ',')
  {
    var plain := IdToken(hex, d, nonce, false, false, false);
    IdTokenText(hex, d, nonce, false, false, false);
    IdTokenText(hex, d, nonce, false, true, false);
    PlainLabelFree(hex, d, nonce);
    hide IdToken, ToLower, Itoa, IntText;
    assert IdToken(hex, d, nonce, false, true, false) == plain + "-qminMode";
    LowerConcat(plain, "-qminMode");
    LowerModeMark();
  }

  lemma LowerModeMark()
    ensures ToLower("-qminMode") == "-qminmode"
  {
  }

  // The TXT query for the full name is answered, and the scanner reads the resolver and the log.
  lemma ModeAnswered(zone: Zone, qs: seq<Query>, q: Query, d: nat, id: string)
    requires d >= 1 && ProbeLabel(id) && ModeLabel(id) && DepthOf(id) == d && Free(id, '|') && Free(id, ',')
    requires PlainQueries(qs + [q]) && TailsOnly(zone, qs + [q], d, id) && NeverCarried(zone, qs + [q], id + INDUCTION)
    requires TxtOnlyAtFullDepth(d, Entries(zone, qs + [q], id)) && Asks(zone, q, d, id) && q.qtype == "TXT"
    ensures var es := Entries(zone, qs + [q], id);
      && id in Serve(zone, qs + [q]) && es != [] && es[|es| - 1] == Entry(d, "TXT") && Tails(d, es)
      && var p := Serve(zone, qs + [q])[id];
      && Rising(Maxima(es)) && LogShape(d, id, Maxima(es), FirstStray(es) < |es|)
      && p.log == LogLines(d, id, Maxima(es), FirstStray(es) < |es|)
      && Relayed(Respond(zone, Serve(zone, qs), q)) == Seen(p.resolver, 0, Join(p.log, '|'), "NULL")
  {
    var all := qs + [q];
    var es := Entries(zone, all, id);
    hide *;
    QueriesUnderscoreFree(all);
    TailCarries(zone, q, d, id);
    LastCarried(zone, qs, q, id);
    ServerAccount(zone, all, d, id);
    AccountLines(zone, all, d, id);
    FullNameCompletes(zone, qs, q, d, id);
    ModeReply(zone, qs, q, d, d, id);
    OwnTouched(zone, qs, q, id);
    LastEntry(zone, qs, q, d, id);
    AnswerReadable(zone, all, d, id, Maxima(es), FirstStray(es) < |es|);
    var p := Serve(zone, all)[id];
    RelayedTxt(TxtText(p), p.resolver, Join(p.log, '|'));
  }

  lemma LastCarried(zone: Zone, qs: seq<Query>, q: Query, id: string)
    requires Carries(zone, q, id)
    ensures EverCarried(zone, qs + [q], id)
  {
    hide Carries;
    assert (qs + [q])[|qs|] == q;
  }

  lemma RelayedTxt(txt: string, resolver: string, log: string)
    requires ReadTxt(txt) == Result(resolver, log, "NULL", "NULL")
    ensures Relayed(Reply(NoError, [Answer("TXT", txt)])) == Seen(resolver, 0, log, "NULL")
  {
    hide ReadTxt;
  }

  lemma ModeMerged(d: nat, id: string, es: seq<Entry>, meta: M.Metadata, row: M.Row)
    requires d >= 1 && Tails(d, es) && es != [] && TxtOnlyAtFullDepth(d, es) && es[|es| - 1] == Entry(d, "TXT")
    requires Rising(Maxima(es)) && LogShape(d, id, Maxima(es), FirstStray(es) < |es|)
    requires row.modeCheck && row.requestingIp != "NONE"
    requires row.response == Join(LogLines(d, id, Maxima(es), FirstStray(es) < |es|), '|')
    ensures M.EvalRow(meta, row).Some?
    ensures M.EvalRow(meta, row).value.mode == if es[0] == Entry(d, "TXT") then "" else "relaxed"
  {
    LinesIff(d, es);
    var ms, extra := Maxima(es), FirstStray(es) < |es|;
    hide Maxima, FirstStray, TxtOnlyAtFullDepth, Tails;
    LogSome(d, id, ms, extra);
    LinesFree(d, id, ms, extra, '|');
    hide LogLines, LogShape, Rising, Join, Analyzed;
    BarIff(LogLines(d, id, ms, extra));
  }

  // A resolver that goes on to the full name gets the log, whatever was refused before. It is merged
  // as relaxed, unless the TXT query for the full name was the first query of all: then the row says
  // nothing about the mode.
  lemma RelaxedSeenIff(zone: Zone, hex: string, d: nat, nonce: nat, qs: seq<Query>, q: Query,
                       meta: M.Metadata, row: M.Row)
    requires PlainHex(hex) && 1 <= d <= MAX_INT && PlainQueries(qs + [q]) && q.qtype == "TXT"
    requires var id := ToLower(IdToken(hex, d, nonce, false, true, false));
      && TailsOnly(zone, qs + [q], d, id) && NeverCarried(zone, qs + [q], id + INDUCTION)
      && TxtOnlyAtFullDepth(d, Entries(zone, qs + [q], id)) && Asks(zone, q, d, id)
    requires var seen := Relayed(Respond(zone, Serve(zone, qs), q));
      row.modeCheck && row.requestingIp == seen.requestingIp != "NONE" && row.response == seen.response
    ensures var id := ToLower(IdToken(hex, d, nonce, false, true, false));
      var es := Entries(zone, qs + [q], id);
      && es != [] && M.EvalRow(meta, row).Some?
      && id in Serve(zone, qs + [q])
      && var p := Serve(zone, qs + [q])[id];
      && Relayed(Respond(zone, Serve(zone, qs), q)) == Seen(p.resolver, 0, Join(p.log, '|'), "NULL")
      && M.EvalRow(meta, row).value.mode == (if es[0] == Entry(d, "TXT") then "" else "relaxed")
  {
    var id := ToLower(IdToken(hex, d, nonce, false, true, false));
    ModeToken(hex, d, nonce);
    ModeTokenFree(hex, d, nonce);
    hide *;
    ModeAnswered(zone, qs, q, d, id);
    ModeMerged(d, id, Entries(zone, qs + [q], id), meta, row);
  }

  // ---------- labels without a mark ----------

  // A query for any tail of the name, of any type: delegation until the full name is complete, then
  // the log for TXT and nothing for other types.
  lemma PlainReply(zone: Zone, qs: seq<Query>, q: Query, m: nat, d: nat, id: string)
    requires d >= 1 && ProbeLabel(id) && DepthOf(id) == d && 1 <= m <= d && Asks(zone, q, m, id)
    requires TailsOnly(zone, qs + [q], d, id) && UnderscoreFree(qs + [q]) && PlainProbe(zone, qs + [q], id)
    ensures id in Serve(zone, qs + [q])
    ensures Respond(zone, Serve(zone, qs), q) == Reply(NoError,
      if !Completed(d, Entries(zone, qs + [q], id)) then [Answer("NS", NAME_SERVER)]
      else if q.qtype == "TXT" then [Answer("TXT", TxtText(Serve(zone, qs + [q])[id]))] else [])
  {
    var all := qs + [q];
    TailRouted(zone, q, m, id);
    assert RouteOf(zone, q).meta == Split(id, '-') && |Split(id, '-')| == 3;
    assert NeverCarried(zone, all, id + INDUCTION);
    hide Asks, TailsOnly, UnderscoreFree, NeverCarried, Entries, Split, RouteOf, Respond, Completed, ProbeLabel;
    OwnTouched(zone, qs, q, id);
    ServerAccount(zone, all, d, id);
    AccountCompleted(zone, all, d, id);
    DepthRead(zone, all, id);
    PlainInduction(zone, all, id);
    hide Serve, Account, Touched, Tracked, DepthOf;
    RespondUnmarked(zone, q, Serve(zone, all)[id], Serve(zone, qs));
  }

  lemma RespondUnmarked(zone: Zone, q: Query, p: Probe, probes: map<string, Probe>)
    requires RouteOf(zone, q).Ask? && |RouteOf(zone, q).meta| == 3
    requires p == Touched(probes, RouteOf(zone, q), q) && !p.induction
    ensures Respond(zone, probes, q) == Reply(NoError,
      if p.current != p.depth then [Answer("NS", NAME_SERVER)]
      else if q.qtype == "TXT" then [Answer("TXT", TxtText(p))] else [])
  {
    hide RouteOf, Touched, Join;
  }

  // Who is reported as minimising: every resolver but the one whose first query was already the TXT
  // query for the full name.
  lemma MinimisesIff(zone: Zone, hex: string, d: nat, nonce: nat, qs: seq<Query>, q: Query, baseURL: string)
    requires 1 <= d && d + BaseLabels(zone.base) <= MAX_INT && SameBase(baseURL, zone.base)
    requires PlainHex(hex) && |hex| + |Itoa(d)| + |Itoa(nonce)| >= 8
    requires var id := ToLower(IdToken(hex, d, nonce, false, false, false));
      && TailsOnly(zone, qs, d, id) && PlainQueries(qs + [q])
      && Asks(zone, q, d, id) && q.qtype == "TXT"
      && (forall i :: 0 <= i < |qs + [q]| ==> !Carries(zone, (qs + [q])[i], id + INDUCTION))
      && TxtOnlyAtFullDepth(d, Entries(zone, qs + [q], id))
    ensures var id := ToLower(IdToken(hex, d, nonce, false, false, false));
      var es := Entries(zone, qs + [q], id);
      var seen := Relayed(Respond(zone, Serve(zone, qs), q));
      && es != [] && !Analyzed(seen.response, baseURL).Fatal?
      && (Analyzed(seen.response, baseURL).qmin <==> es[0] != Entry(d, "TXT"))
  {
    var id := ToLower(IdToken(hex, d, nonce, false, false, false));
    var es := Entries(zone, qs + [q], id);
    hide *;
    ScanToPattern(zone, hex, d, nonce, qs, q, baseURL);
    PlainProbeLabel(hex, d, nonce);
    var p := Serve(zone, qs + [q])[id];
    RelayedTxt(TxtText(p), p.resolver, Join(LogLines(d, id, Maxima(es), FirstStray(es) < |es|), '|'));
    LastEntry(zone, qs, q, d, id);
    QueriesUnderscoreFree(qs + [q]);
    AllTails(zone, qs, q, d, id);
    ServerAccount(zone, qs + [q], d, id);
    LinesIff(d, es);
    ReportedQmin(d, id, Maxima(es), FirstStray(es) < |es|, BaseLabels(zone.base),
                 Analyzed(Join(LogLines(d, id, Maxima(es), FirstStray(es) < |es|), '|'), baseURL));
  }

  lemma PlainProbeLabel(hex: string, d: nat, nonce: nat)
    requires PlainHex(hex) && d <= MAX_INT && |hex| + |Itoa(d)| + |Itoa(nonce)| >= 8
    ensures var id := ToLower(IdToken(hex, d, nonce, false, false, false)); ProbeLabel(id) && DepthOf(id) == d
  {
    PlainLabel(hex, d, nonce);
    hide ToLower, IdToken, Itoa, Split, DepthOf;
  }

  lemma ReportedQmin(d: nat, id: string, ms: seq<Entry>, extra: bool, base: nat, v: Verdict)
    requires Rising(ms) && Reported(d, id, ms, extra, base, v)
    ensures !v.Fatal? && (v.qmin <==> |LogEntries(d, ms, extra)| >= 2)
  {
    hide LogEntries, Printed, Singles, Shown, Rising;
  }

  // ---------- who asked ----------

  ghost predicate FirstCarried(zone: Zone, qs: seq<Query>, id: string, i: nat)
  {
    i < |qs| && Carries(zone, qs[i], id) && NeverCarried(zone, qs[..i], id)
  }

  lemma FirstCarriedBefore(zone: Zone, qs: seq<Query>, id: string, i: nat)
    requires FirstCarried(zone, qs, id, i)
    ensures i < |qs| - 1 ==> FirstCarried(zone, qs[..|qs| - 1], id, i)
    ensures i == |qs| - 1 ==> NeverCarried(zone, qs[..|qs| - 1], id) && Carries(zone, qs[|qs| - 1], id)
  {
    hide Carries, NeverCarried;
    if i < |qs| - 1 {
      assert qs[..|qs| - 1][..i] == qs[..i];
    }
  }

  // The resolver of a probe is the sender of the first query that carried the label, without its port.
  lemma {:induction false} ResolverFirst(zone: Zone, qs: seq<Query>, id: string, i: nat)
    requires NeverCarried(zone, qs, id + INDUCTION) && FirstCarried(zone, qs, id, i)
    ensures i < |qs| && id in Serve(zone, qs) && Serve(zone, qs)[id].resolver == Host(qs[i].remote)
    decreases |qs|
  {
    FirstCarriedBefore(zone, qs, id, i);
    var n := |qs| - 1;
    assert i <= n;
    var before := qs[..n];
    hide *;
    NeverPrefix(zone, qs, n, id + INDUCTION);
    NeverServed(zone, before, id + INDUCTION);
    ServeNext(zone, qs);
    if i < n {
      assert before[i] == qs[i];
      ResolverFirst(zone, before, id, i);
      ResolverKept(zone, Serve(zone, before), qs[n], id);
    } else {
      NeverServed(zone, before, id);
      ResolverSet(zone, Serve(zone, before), qs[n], id);
    }
  }

  lemma ServeNext(zone: Zone, qs: seq<Query>)
    requires qs != []
    ensures Serve(zone, qs) == Enter(zone, Serve(zone, qs[..|qs| - 1]), qs[|qs| - 1])
  {
    hide Enter;
  }

  lemma NeverServed(zone: Zone, qs: seq<Query>, id: string)
    requires NeverCarried(zone, qs, id)
    ensures id !in Serve(zone, qs)
  {
    hide Carries, Serve;
    ProbesAsked(zone, qs, id);
  }

  lemma ResolverKept(zone: Zone, probes: map<string, Probe>, q: Query, id: string)
    requires id in probes
    ensures id in Enter(zone, probes, q) && Enter(zone, probes, q)[id].resolver == probes[id].resolver
  {
    hide RouteOf, Updated, Host;
  }

  lemma ResolverSet(zone: Zone, probes: map<string, Probe>, q: Query, id: string)
    requires id !in probes && id + INDUCTION !in probes && Carries(zone, q, id)
    ensures id in Enter(zone, probes, q) && Enter(zone, probes, q)[id].resolver == Host(q.remote)
  {
    hide RouteOf, Updated, Host;
  }

  lemma HostOf(ip: string, port: string)
    requires Free(ip, ':')
    ensures Host(ip + ":" + port) == ip
  {
    SplitAt(ip, ':', port);
    hide Split;
    assert ip + ":" + port == ip + [':'] + port;
  }
}
