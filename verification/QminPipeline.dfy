// From the scanner's name through the server's log to the reported pattern.
module QminPipeline {
  import opened Text
  import opened QminName
  import opened QminServer
  import opened QminTrack
  import opened QminLog
  import opened QminPattern

  // A query, in any spelling and maybe behind "_.", for the last m labels of the name.
  predicate Asks(zone: Zone, q: Query, m: nat, id: string)
    requires m >= 1
  {
    var lower := ToLower(q.name);
    && !(lower in zone.records && zone.records[lower].qtype == q.qtype)
    && (lower == Name(m, id) + "." + zone.base || lower == "_." + Name(m, id) + "." + zone.base)
  }

  // The form of every label the scanner prints.
  ghost predicate ScanLabel(id: string)
  {
    IdLabel(id) && |Split(id, '-')| >= 3
  }

  // Such a label of the length the server accepts.
  ghost predicate ProbeLabel(id: string)
  {
    ScanLabel(id) && |id| >= 10
  }

  lemma UnderscoreOff(m: nat, id: string, rest: string)
    requires m >= 1 && ScanLabel(id) && rest != ""
    ensures WithoutUnderscore(Name(m, id) + rest) == Name(m, id) + rest
    ensures WithoutUnderscore("_." + Name(m, id) + rest) == Name(m, id) + rest
  {
    hide Split, Name;
    NameFree(m, id, '_');
    NameNonempty(m, id);
    var name := Name(m, id);
    assert name[0] in name;
    assert (name + rest)[..2][0] == name[0];
    assert ("_." + name + rest)[..2] == "_.";
    assert ("_." + name + rest)[2..] == name + rest;
  }

  // A query for a tail of the name is entered under the name's label if the label has at least ten
  // characters, and refused otherwise.
  lemma TailRouted(zone: Zone, q: Query, m: nat, id: string)
    requires m >= 1 && ScanLabel(id) && Asks(zone, q, m, id)
    ensures RouteOf(zone, q) == if |id| >= 10 then Ask(id, Name(m, id), Labels(m, id), Split(id, '-')) else BadId
  {
    var name := Name(m, id) + ("." + zone.base);
    UnderscoreOff(m, id, "." + zone.base);
    NameLabels(m, id);
    hide Name, Split, ToLower, WithoutUnderscore, Labels;
    assert Name(m, id) + "." + zone.base == name;
    assert "_." + Name(m, id) + "." + zone.base == "_." + Name(m, id) + ("." + zone.base);
    assert WithoutUnderscore(ToLower(q.name)) == name;
    assert name[|name| - |zone.base|..] == zone.base;
    assert name[..|name| - |zone.base| - 1] == Name(m, id);
  }

  // The name the scanner sends is itself such a query, whatever the case of its hexadecimal part.
  lemma ScannerAsks(zone: Zone, hex: string, d: nat, nonce: nat, baseDomain: string, qtype: string, remote: string)
    requires d >= 1 && ToLower(baseDomain) == zone.base
    requires var id := IdToken(hex, d, nonce, false, false, false);
      ToLower(Name(d, id) + "." + baseDomain) !in zone.records
    ensures var id := IdToken(hex, d, nonce, false, false, false);
      Asks(zone, Query(Name(d, id) + "." + baseDomain, qtype, remote), d, ToLower(id))
  {
    hide IdToken, Name, ToLower;
    var id := IdToken(hex, d, nonce, false, false, false);
    LowerName(d, id);
    LowerConcat(Name(d, id) + ".", baseDomain);
    LowerConcat(Name(d, id), ".");
    LowerDot();
  }

  // The server deals with the scanner's queries exactly when hexadecimal part, depth and nonce have
  // eight digits together. The part of an IPv4 target has eight by itself; a checksum may have fewer.
  lemma ServedIff(zone: Zone, probes: map<string, Probe>, hex: string, d: nat, nonce: nat, q: Query, m: nat)
    requires Free(hex, '-') && Free(hex, '.') && Free(hex, '_') && d <= MAX_INT && m >= 1
    requires Asks(zone, q, m, ToLower(IdToken(hex, d, nonce, false, false, false)))
    ensures RouteOf(zone, q).Ask? <==> |hex| + |Itoa(d)| + |Itoa(nonce)| >= 8
    ensures |hex| + |Itoa(d)| + |Itoa(nonce)| < 8 ==>
      Respond(zone, probes, q) == Reply(Refused, []) && Enter(zone, probes, q) == probes
  {
    PlainLabel(hex, d, nonce);
    hide Asks, Split, ScanLabel, ToLower, IdToken, Itoa, RouteOf, Name, Labels;
    TailRouted(zone, q, m, ToLower(IdToken(hex, d, nonce, false, false, false)));
  }

  lemma LowerDot()
    ensures ToLower(".") == "."
  {
  }

  // Every query that carries the label asks for a tail of the one name.
  ghost predicate TailsOnly(zone: Zone, qs: seq<Query>, d: nat, id: string)
  {
    forall i :: 0 <= i < |qs| && Carries(zone, qs[i], id) ==> AsksSome(zone, qs[i], d, id)
  }

  ghost predicate AsksSome(zone: Zone, q: Query, d: nat, id: string)
  {
    exists m: nat :: 1 <= m <= d && Asks(zone, q, m, id)
  }

  // The queries that carry the label, as depths and types.
  function Entries(zone: Zone, qs: seq<Query>, id: string): seq<Entry>
  {
    if qs == [] then []
    else
      var q := qs[|qs| - 1];
      var before := Entries(zone, qs[..|qs| - 1], id);
      if Carries(zone, q, id) then before + [Entry(|RouteOf(zone, q).tokens|, q.qtype)] else before
  }

  ghost predicate UnderscoreFree(qs: seq<Query>)
  {
    forall i :: 0 <= i < |qs| ==> Free(qs[i].qtype, '_')
  }

  lemma TailEntry(zone: Zone, q: Query, d: nat, id: string)
    requires ProbeLabel(id) && Carries(zone, q, id) && AsksSome(zone, q, d, id)
    ensures var n := |RouteOf(zone, q).tokens|;
      1 <= n <= d && RouteOf(zone, q).tokenSeq == Name(n, id)
  {
    var m: nat :| 1 <= m <= d && Asks(zone, q, m, id);
    TailRouted(zone, q, m, id);
  }

  lemma {:induction false} EntriesSighted(zone: Zone, qs: seq<Query>, d: nat, id: string)
    requires ProbeLabel(id) && TailsOnly(zone, qs, d, id) && UnderscoreFree(qs)
    ensures id != "" && Tails(d, Entries(zone, qs, id))
    ensures Sightings(zone, qs, id) == Sighted(id, Entries(zone, qs, id))
  {
    assert id != "";
    if qs != [] {
      var q := qs[|qs| - 1];
      hide RouteOf, AsksSome, ProbeLabel, Free, Name;
      EntriesSighted(zone, qs[..|qs| - 1], d, id);
      if Carries(zone, q, id) {
        TailEntry(zone, q, d, id);
        assert Entries(zone, qs, id)[..|Entries(zone, qs, id)| - 1] == Entries(zone, qs[..|qs| - 1], id);
      }
    }
  }

  // What the server has logged under the label after any run, other probes' queries included.
  lemma ServerAccount(zone: Zone, qs: seq<Query>, d: nat, id: string)
    requires d >= 1 && ProbeLabel(id) && DepthOf(id) == d && TailsOnly(zone, qs, d, id) && UnderscoreFree(qs)
    ensures Tails(d, Entries(zone, qs, id))
    ensures Tracked(Serve(zone, qs), id) == Account(d, id, Entries(zone, qs, id))
  {
    RunTracked(zone, qs, id);
    EntriesSighted(zone, qs, d, id);
    LogIsAccount(d, id, Entries(zone, qs, id));
  }

  // ---------- the answer ----------

  lemma {:induction false} FirstPartFree(s: string, x: char, c: char)
    requires Free(s, c)
    ensures Free(Split(s, x)[0], c)
  {
    if s != "" {
      assert s[0] in s;
      FirstPartFree(s[1..], x, c);
    }
  }

  // The label belongs to a plain probe: three parts and no induction probe behind it.
  ghost predicate PlainProbe(zone: Zone, qs: seq<Query>, id: string)
  {
    && |Split(id, '-')| == 3
    && forall i :: 0 <= i < |qs| ==> !Carries(zone, qs[i], id + INDUCTION)
  }

  lemma OwnProbe(zone: Zone, qs: seq<Query>, q: Query, id: string)
    requires Carries(zone, q, id) && PlainProbe(zone, qs, id)
    ensures id in Serve(zone, qs + [q])
    ensures var p := Serve(zone, qs + [q])[id];
      && Tracked(Serve(zone, qs + [q]), id) == Track(p.log, p.current)
      && Touched(Serve(zone, qs), RouteOf(zone, q), q) == p
  {
    ProbesAsked(zone, qs, id + INDUCTION);
    hide RouteOf, Touched, Split;
    assert (qs + [q])[..|qs|] == qs;
  }

  // A probe is marked by the fourth part of the label it is kept under.
  lemma {:induction false} InductionFlag(zone: Zone, qs: seq<Query>, k: string)
    requires k in Serve(zone, qs)
    ensures Serve(zone, qs)[k].induction <==> Marked(Split(k, '-'), "induction")
  {
    if qs != [] {
      var before := qs[..|qs| - 1];
      hide Updated, Split, RouteOf;
      if k in Serve(zone, before) {
        InductionFlag(zone, before, k);
      }
    }
  }

  function TxtText(p: Probe): string
  {
    p.resolver + "," + Join(p.log, '|') + ",NULL,NULL"
  }

  // A TXT query for the full name is answered with the log exactly when no TXT query for a shorter
  // name came where that name was the longest so far and first seen under another type; otherwise
  // the answer is one more delegation.
  lemma TxtAnsweredIff(zone: Zone, qs: seq<Query>, q: Query, d: nat, id: string)
    requires d >= 1 && ProbeLabel(id) && DepthOf(id) == d && TailsOnly(zone, qs, d, id) && UnderscoreFree(qs + [q])
    requires Asks(zone, q, d, id) && q.qtype == "TXT" && PlainProbe(zone, qs + [q], id)
    ensures id in Serve(zone, qs + [q])
    ensures var es := Entries(zone, qs + [q], id);
      Respond(zone, Serve(zone, qs), q) ==
        if forall i :: 0 <= i < |es| && Stray(es, i) ==> es[i].depth == d
        then Reply(NoError, [Answer("TXT", TxtText(Serve(zone, qs + [q])[id]))])
        else Reply(NoError, [Answer("NS", NAME_SERVER)])
  {
    hide *;
    var all := qs + [q];
    TailCarries(zone, q, d, id);
    PlainBefore(zone, qs, q, id);
    OwnProbe(zone, qs, q, id);
    CountIff(zone, qs, q, d, id);
    DepthRead(zone, all, id);
    PlainInduction(zone, all, id);
    RespondPlain(zone, q, Serve(zone, all)[id], Serve(zone, qs));
  }

  lemma TailCarries(zone: Zone, q: Query, m: nat, id: string)
    requires m >= 1 && ProbeLabel(id) && Asks(zone, q, m, id)
    ensures Carries(zone, q, id) && RouteOf(zone, q).Ask? && |RouteOf(zone, q).meta| == |Split(id, '-')|
  {
    TailRouted(zone, q, m, id);
  }

  lemma DepthRead(zone: Zone, qs: seq<Query>, id: string)
    requires id in Serve(zone, qs)
    ensures Serve(zone, qs)[id].depth == DepthOf(id)
  {
    RunTracked(zone, qs, id);
  }

  lemma PlainInduction(zone: Zone, qs: seq<Query>, id: string)
    requires PlainProbe(zone, qs, id) && id in Serve(zone, qs)
    ensures !Serve(zone, qs)[id].induction && |Split(id, '-')| == 3
  {
    hide Serve, Split, Carries;
    InductionFlag(zone, qs, id);
  }

  lemma PlainBefore(zone: Zone, qs: seq<Query>, q: Query, id: string)
    requires PlainProbe(zone, qs + [q], id)
    ensures PlainProbe(zone, qs, id)
  {
    hide Carries, Split;
    assert forall i :: 0 <= i < |qs| ==> qs[i] == (qs + [q])[i];
  }

  // The server's label count reaches the full depth exactly under the condition above.
  lemma CountIff(zone: Zone, qs: seq<Query>, q: Query, d: nat, id: string)
    requires d >= 1 && ProbeLabel(id) && DepthOf(id) == d && TailsOnly(zone, qs, d, id) && UnderscoreFree(qs + [q])
    requires Asks(zone, q, d, id)
    ensures var es := Entries(zone, qs + [q], id);
      Tracked(Serve(zone, qs + [q]), id).count == d <==> forall i :: 0 <= i < |es| && Stray(es, i) ==> es[i].depth == d
  {
    var all := qs + [q];
    var es := Entries(zone, all, id);
    AllTails(zone, qs, q, d, id);
    RunTracked(zone, all, id);
    EntriesSighted(zone, all, d, id);
    LastEntry(zone, qs, q, d, id);
    assert es[|es| - 1].depth == d;
    assert ProbeLabel(id) ==> IdLabel(id);
    hide Stray, Serve, Entries, Sighted, Asks, ProbeLabel, Tracked, TailsOnly, UnderscoreFree, Tails, IdLabel;
    CompletesIff(d, id, es);
  }

  lemma RespondPlain(zone: Zone, q: Query, p: Probe, probes: map<string, Probe>)
    requires RouteOf(zone, q).Ask? && |RouteOf(zone, q).meta| == 3 && q.qtype == "TXT"
    requires p == Touched(probes, RouteOf(zone, q), q) && !p.induction
    ensures Respond(zone, probes, q) == Reply(NoError,
      [if p.current == p.depth then Answer("TXT", TxtText(p)) else Answer("NS", NAME_SERVER)])
  {
    hide RouteOf, Touched, Join;
  }

  lemma AllTails(zone: Zone, qs: seq<Query>, q: Query, d: nat, id: string)
    requires d >= 1 && TailsOnly(zone, qs, d, id) && Asks(zone, q, d, id)
    ensures TailsOnly(zone, qs + [q], d, id)
  {
    hide Carries, Asks;
    assert AsksSome(zone, q, d, id);
  }

  lemma LastEntry(zone: Zone, qs: seq<Query>, q: Query, d: nat, id: string)
    requires d >= 1 && ProbeLabel(id) && Asks(zone, q, d, id)
    ensures Entries(zone, qs + [q], id) == Entries(zone, qs, id) + [Entry(d, q.qtype)]
  {
    TailRouted(zone, q, d, id);
    hide RouteOf, Asks;
    assert (qs + [q])[..|qs|] == qs;
  }

  // ---------- the scanner's reading of the answer ----------

  datatype QueryResult =
    | Unhandled
    | Result(requester: string, response: string, inducedRequester: string, inducedPattern: string)

  function ReadTxt(txt: string): QueryResult
  {
    if ',' !in txt then Unhandled
    else
      var split := Split(txt, ',');
      if txt == "false,,," then Result("NONE", split[0], "", "")
      else if |split| > 3 then Result(split[0], split[1], split[2], split[3])
      else Unhandled
  }

  lemma FourColumns(a: string, b: string, c: string, d: string)
    requires Free(a, ',') && Free(b, ',') && Free(c, ',') && Free(d, ',')
    ensures Split(a + "," + b + "," + c + "," + d, ',') == [a, b, c, d]
  {
    hide Split;
    SplitFree(d, ',');
    SplitAt(c, ',', d);
    SplitAt(b, ',', c + "," + d);
    SplitAt(a, ',', b + "," + (c + "," + d));
    assert b + "," + (c + "," + d) == b + "," + c + "," + d;
    assert a + "," + (b + "," + (c + "," + d)) == a + "," + b + "," + c + "," + d;
  }

  lemma TxtRead(p: Probe)
    requires Free(p.resolver, ',') && Free(Join(p.log, '|'), ',') && p.resolver != "false"
    ensures ReadTxt(TxtText(p)) == Result(p.resolver, Join(p.log, '|'), "NULL", "NULL")
  {
    hide Join, Split;
    var log := Join(p.log, '|');
    FourColumns(p.resolver, log, "NULL", "NULL");
    var txt := p.resolver + "," + log + "," + "NULL" + "," + "NULL";
    assert txt == TxtText(p);
    assert txt[|p.resolver|] == ',';
    assert ',' in txt;
    assert Split(txt, ',')[0] == p.resolver;
    FourColumns("false", "", "", "");
    assert "false" + "," + "" + "," + "" + "," + "" == "false,,,";
    assert Split("false,,,", ',')[0] == "false";
  }

  // ---------- end to end ----------

  ghost predicate PlainQueries(qs: seq<Query>)
  {
    forall i :: 0 <= i < |qs| ==> PlainType(qs[i].qtype) && Free(qs[i].remote, ',') && Host(qs[i].remote) != "false"
  }

  // Every probe was created for some query's sender.
  lemma {:induction false} ResolverSent(zone: Zone, qs: seq<Query>, k: string)
    requires k in Serve(zone, qs)
    ensures exists i :: 0 <= i < |qs| && Serve(zone, qs)[k].resolver == Host(qs[i].remote)
  {
    if qs != [] {
      var before := qs[..|qs| - 1];
      var q := qs[|qs| - 1];
      hide Updated, RouteOf, Host;
      if k in Serve(zone, before) {
        ResolverSent(zone, before, k);
        var i :| 0 <= i < |before| && Serve(zone, before)[k].resolver == Host(before[i].remote);
        assert qs[i] == before[i];
      } else {
        assert Serve(zone, qs)[k].resolver == Host(q.remote);
      }
    }
  }

  lemma ResolverReadable(zone: Zone, qs: seq<Query>, k: string)
    requires k in Serve(zone, qs) && PlainQueries(qs)
    ensures Free(Serve(zone, qs)[k].resolver, ',') && Serve(zone, qs)[k].resolver != "false"
  {
    ResolverSent(zone, qs, k);
    hide Serve, Split, PlainType;
    var i :| 0 <= i < |qs| && Serve(zone, qs)[k].resolver == Host(qs[i].remote);
    FirstPartFree(qs[i].remote, ':', ',');
  }

  lemma {:induction false} EntriesPlain(zone: Zone, qs: seq<Query>, id: string)
    requires PlainQueries(qs)
    ensures PlainTypes(Entries(zone, qs, id))
  {
    if qs != [] {
      hide RouteOf, PlainType, Host;
      EntriesPlain(zone, qs[..|qs| - 1], id);
    }
  }

  lemma MaximaPlain(es: seq<Entry>)
    requires PlainTypes(es)
    ensures PlainTypes(Maxima(es))
  {
    MaximaRise(es);
    hide PlainType, Maxima;
    forall i | 0 <= i < |Maxima(es)| ensures PlainType(Maxima(es)[i].qtype) {
      assert Maxima(es)[i] in es;
    }
  }

  ghost predicate Scenario(zone: Zone, qs: seq<Query>, q: Query, d: nat, id: string)
  {
    && d >= 1 && ProbeLabel(id) && Free(id, '|') && Free(id, ',') && DepthOf(id) == d
    && TailsOnly(zone, qs, d, id) && PlainQueries(qs + [q]) && PlainProbe(zone, qs + [q], id)
    && Asks(zone, q, d, id) && q.qtype == "TXT" && TxtOnlyAtFullDepth(d, Entries(zone, qs + [q], id))
  }

  lemma LogAnswered(zone: Zone, qs: seq<Query>, q: Query, d: nat, id: string)
    requires Scenario(zone, qs, q, d, id)
    ensures var es := Entries(zone, qs + [q], id);
      var extra := FirstStray(es) < |es|;
      && id in Serve(zone, qs + [q]) && Rising(Maxima(es))
      && LogShape(d, id, Maxima(es), extra)
      && Serve(zone, qs + [q])[id].log == LogLines(d, id, Maxima(es), extra)
      && Respond(zone, Serve(zone, qs), q) == Reply(NoError, [Answer("TXT", TxtText(Serve(zone, qs + [q])[id]))])
  {
    var all := qs + [q];
    var es := Entries(zone, all, id);
    hide ProbeLabel, TailsOnly, PlainQueries, PlainProbe, Asks, TxtOnlyAtFullDepth, Entries, Serve, Respond, TxtText,
      Touched, Carries, RouteOf, Rendered, Maxima, Deepest, LogShape, Tracked, Stray, FirstStray, Free, DepthOf, Tails,
      PlainTypes, Rising;
    TailCarries(zone, q, d, id);
    QueriesUnderscoreFree(all);
    PlainBefore(zone, qs, q, id);
    OwnProbe(zone, qs, q, id);
    AllTails(zone, qs, q, d, id);
    ServerAccount(zone, all, d, id);
    AccountFrom(d, id, es);
    LastEntry(zone, qs, q, d, id);
    EntriesPlain(zone, all, id);
    LogShaped(d, id, es);
    StraysAllFull(d, es);
    TxtAnsweredIff(zone, qs, q, d, id);
  }

  lemma AnswerReadable(zone: Zone, qs: seq<Query>, d: nat, id: string, ms: seq<Entry>, extra: bool)
    requires d >= 1 && Rising(ms) && LogShape(d, id, ms, extra) && PlainQueries(qs)
    requires id in Serve(zone, qs) && Serve(zone, qs)[id].log == LogLines(d, id, ms, extra)
    ensures var p := Serve(zone, qs)[id];
      ReadTxt(TxtText(p)) == Result(p.resolver, Join(LogLines(d, id, ms, extra), '|'), "NULL", "NULL")
  {
    hide *;
    ResolverReadable(zone, qs, id);
    LinesJoinFree(d, id, ms, extra);
    TxtRead(Serve(zone, qs)[id]);
  }

  // The scanner's configured base domain and the server's: the same up to case and a final dot.
  predicate SameBase(baseURL: string, base: string)
  {
    ToLower(baseURL) == base || (!HasSuffix(baseURL, ".") && ToLower(baseURL) + "." == base)
  }

  lemma {:induction false} CountLower(s: string)
    ensures Count(ToLower(s), '.') == Count(s, '.')
  {
    if s != "" {
      assert ToLower(s)[1..] == ToLower(s[1..]);
      CountLower(s[1..]);
    }
  }

  // Either spelling has the same number of labels.
  lemma SameBaseLabels(baseURL: string, base: string)
    requires SameBase(baseURL, base)
    ensures BaseLabels(baseURL) == BaseLabels(base)
  {
    CountLower(baseURL);
    var lower := ToLower(baseURL);
    assert baseURL != "" ==> LowerChar(baseURL[|baseURL| - 1]) == lower[|baseURL| - 1];
    assert HasSuffix(lower, ".") <==> lower != "" && lower[|lower| - 1] == '.';
    assert HasSuffix(baseURL, ".") <==> baseURL != "" && baseURL[|baseURL| - 1] == '.';
    if lower != base {
      CountConcat(lower, ".", '.');
      assert Count(".", '.') == 1;
    }
  }

  // The verdict on a log: two or more lines are a minimising resolver, printed line by line; a single
  // line is not, and if it is the id label alone it is echoed.
  ghost predicate Reported(d: nat, id: string, ms: seq<Entry>, extra: bool, base: nat, v: Verdict)
    requires Rising(ms)
  {
    var ls := LogEntries(d, ms, extra);
    if |ls| >= 2 then
      v == Verdict(true, Printed(ls, base), |ls|, if extra && Singles(ms) == |ms| then |ms| + 1 else Singles(ms))
    else
      |ls| == 1 &&
      v == if ls[0].depth == 1 then Verdict(false, id + "_" + ls[0].qtype, 0, 0)
           else Verdict(false, Shown(ls[0], base), 1, 1)
  }

  // The resolver asks for tails of the scanner's name, TXT only for the full name, among any other
  // traffic. When it asks for the full name, the answer carries the log, the scanner reads it back
  // out of the answer, and the analysis reports the maxima of query depth with their types.
  lemma ScanToPattern(zone: Zone, hex: string, d: nat, nonce: nat, qs: seq<Query>, q: Query, baseURL: string)
    requires 1 <= d && d + BaseLabels(zone.base) <= MAX_INT && SameBase(baseURL, zone.base)
    requires PlainHex(hex) && |hex| + |Itoa(d)| + |Itoa(nonce)| >= 8
    requires var id := ToLower(IdToken(hex, d, nonce, false, false, false));
      && TailsOnly(zone, qs, d, id) && PlainQueries(qs + [q])
      && Asks(zone, q, d, id) && q.qtype == "TXT"
      && (forall i :: 0 <= i < |qs + [q]| ==> !Carries(zone, (qs + [q])[i], id + INDUCTION))
      && TxtOnlyAtFullDepth(d, Entries(zone, qs + [q], id))
    ensures var id := ToLower(IdToken(hex, d, nonce, false, false, false));
      var es := Entries(zone, qs + [q], id);
      var extra := FirstStray(es) < |es|;
      Rising(Maxima(es)) && id in Serve(zone, qs + [q]) &&
      var p := Serve(zone, qs + [q])[id];
      var pattern := Join(LogLines(d, id, Maxima(es), extra), '|');
      && Respond(zone, Serve(zone, qs), q) == Reply(NoError, [Answer("TXT", TxtText(p))])
      && ReadTxt(TxtText(p)) == Result(p.resolver, pattern, "NULL", "NULL")
      && Reported(d, id, Maxima(es), extra, BaseLabels(zone.base), Analyzed(pattern, baseURL))
  {
    var id := ToLower(IdToken(hex, d, nonce, false, false, false));
    PlainLabel(hex, d, nonce);
    SameBaseLabels(baseURL, zone.base);
    PlainLabelFree(hex, d, nonce);
    assert ProbeLabel(id);
    hide IdToken, ToLower, Carries, Asks, Split, TailsOnly, TxtOnlyAtFullDepth, PlainQueries, Entries, Serve, Rising,
      Maxima, Respond, Reported, Analyzed, ReadTxt, LogLines, LogShape, FirstStray, TxtText, ProbeLabel, ScanLabel,
      Free, Join, BaseLabels, DepthOf, SameBase, Itoa;
    assert Scenario(zone, qs, q, d, id);
    hide Scenario;
    LogAnswered(zone, qs, q, d, id);
    var es := Entries(zone, qs + [q], id);
    var extra := FirstStray(es) < |es|;
    AnswerReadable(zone, qs + [q], d, id, Maxima(es), extra);
    LogReported(d, id, Maxima(es), extra, baseURL);
  }

  lemma LogReported(d: nat, id: string, ms: seq<Entry>, extra: bool, baseURL: string)
    requires d >= 1 && Rising(ms) && LogShape(d, id, ms, extra) && d + BaseLabels(baseURL) <= MAX_INT
    ensures Reported(d, id, ms, extra, BaseLabels(baseURL), Analyzed(Join(LogLines(d, id, ms, extra), '|'), baseURL))
  {
    if |LogEntries(d, ms, extra)| >= 2 {
      hide LogShape, LogLines, Analyzed, Join, Rising, Printed, Singles, BaseLabels;
      AnalyzeLog(d, id, ms, extra, baseURL);
    } else {
      assert ms != [];
      OneLine(ms);
      hide LogShape, LogLines, Analyzed, Join, Rising, Printed, Singles, BaseLabels, Name, Shown;
      AnalyzeSingle(d, id, ms[0], baseURL);
      NameOne(id);
    }
  }

  lemma OneLine(ms: seq<Entry>)
    requires |ms| == 1
    ensures ms == [ms[0]]
  {
  }

  ghost predicate PlainHex(hex: string)
  {
    Free(hex, '-') && Free(hex, '.') && Free(hex, '_') && Free(hex, '|') && Free(hex, ',')
  }

  lemma PlainLabel(hex: string, d: nat, nonce: nat)
    requires Free(hex, '-') && Free(hex, '.') && Free(hex, '_') && d <= MAX_INT
    ensures var id := ToLower(IdToken(hex, d, nonce, false, false, false));
      && ScanLabel(id) && |Split(id, '-')| == 3 && DepthOf(id) == d
      && |id| == |hex| + |Itoa(d)| + |Itoa(nonce)| + 2
  {
    var token := IdToken(hex, d, nonce, false, false, false);
    IdTokenRead(hex, d, nonce, false, false, false);
    hide Split, Itoa, ParseIntValue, ToLower;
    DashInside(token);
  }

  lemma PlainLabelFree(hex: string, d: nat, nonce: nat)
    requires PlainHex(hex)
    ensures var id := ToLower(IdToken(hex, d, nonce, false, false, false)); Free(id, '|') && Free(id, ',')
  {
    var parts := IdParts(hex, d, nonce, false, false, false);
    var token := IdToken(hex, d, nonce, false, false, false);
    hide Itoa, ToLower;
    forall c, i | (c == '|' || c == ',') && 0 <= i < 3 ensures Free(parts[i], c) {
      DigitsFree(Itoa(d), c);
      DigitsFree(Itoa(nonce), c);
    }
    JoinFree(parts, '-', '|');
    JoinFree(parts, '-', ',');
    LowerFree(token, '|');
    LowerFree(token, ',');
  }

  lemma DashInside(s: string)
    requires |Split(ToLower(s), '-')| >= 3
    ensures '-' in ToLower(s)
  {
    hide ToLower, Split;
    if Free(ToLower(s), '-') {
      SplitFree(ToLower(s), '-');
    }
  }

  lemma QueriesUnderscoreFree(qs: seq<Query>)
    requires PlainQueries(qs)
    ensures UnderscoreFree(qs)
  {
    hide Host;
  }

  lemma StraysAllFull(d: nat, es: seq<Entry>)
    requires TxtOnlyAtFullDepth(d, es)
    ensures forall i :: 0 <= i < |es| && Stray(es, i) ==> es[i].depth == d
  {
    hide Maxima, Deepest, Last;
  }

  lemma LogShaped(d: nat, id: string, es: seq<Entry>)
    requires d >= 1 && Tails(d, es) && es != [] && PlainTypes(es) && TxtOnlyAtFullDepth(d, es)
    requires ProbeLabel(id) && Free(id, '|') && Free(id, ',')
    ensures Rising(Maxima(es)) && LogShape(d, id, Maxima(es), FirstStray(es) < |es|)
  {
    hide PlainType, Split, Free;
    MaximaRise(es);
    MaximaPlain(es);
    DeepestBound(d, es);
    assert es[0].depth >= 1;
    FirstStrayExact(es);
    var i := FirstStray(es);
    if i < |es| {
      assert es[i].depth == d == Deepest(es[..i]);
      NothingDeeper(es, i);
    }
  }

  lemma LinesJoinFree(d: nat, id: string, ms: seq<Entry>, extra: bool)
    requires d >= 1 && Rising(ms) && LogShape(d, id, ms, extra)
    ensures Free(Join(LogLines(d, id, ms, extra), '|'), ',')
  {
    hide LogShape, LogLines;
    LinesFree(d, id, ms, extra, ',');
    JoinFree(LogLines(d, id, ms, extra), '|', ',');
  }
}
