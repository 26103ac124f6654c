// The authoritative server of the QNAME-minimisation scan. It recognises the id label of a query
// and keeps, per id, a log of how the queried name grew.
module QminServer {
  import opened Text
  import opened QminName

  // A record type is its mnemonic; the empty string stands for every type that has none.
  datatype Query = Query(name: string, qtype: string, remote: string)

  datatype Record = Record(qtype: string, value: string)

  datatype Zone = Zone(base: string, records: map<string, Record>)

  // The newest log line comes first.
  datatype Probe = Probe(depth: int, resolver: string, log: seq<string>, current: int, induction: bool,
                         inducedLog: seq<string>, inducedCurrent: int, inducedResolver: string)

  // ---------- the log of one probe ----------

  function Head(line: string): string
  {
    Split(line, '_')[0]
  }

  function Heads(log: seq<string>): seq<string>
  {
    if log == [] then [] else [Head(log[0])] + Heads(log[1..])
  }

  // The log lines without their record types, as one name.
  function Stripped(log: seq<string>): string
  {
    Join(Heads(log), '.')
  }

  lemma {:induction false} HeadsSnoc(log: seq<string>, line: string)
    ensures Heads(log + [line]) == Heads(log) + [Head(line)]
  {
    if log != [] {
      HeadsSnoc(log[1..], line);
      assert (log + [line])[1..] == log[1..] + [line];
    }
  }

  lemma {:induction false} HeadsNonempty(log: seq<string>)
    ensures |Heads(log)| == |log|
  {
    if log != [] {
      HeadsNonempty(log[1..]);
    }
  }

  method StripRTypes(log: seq<string>) returns (res: string)
    ensures res == Stripped(log)
  {
    hide Split, Join, Head;
    res := "";
    JoinEmpty();
    for i := 0 to |log|
      invariant res == Stripped(log[..i])
    {
      var tmp := Split(log[i], '_')[0];
      HeadIs(log[i]);
      if i == 0 {
        res := tmp;
      } else {
        res := res + "." + tmp;
      }
      assert log[..i + 1] == log[..i] + [log[i]];
      HeadsSnoc(log[..i], log[i]);
      HeadsNonempty(log[..i]);
      JoinSnoc(Heads(log[..i]), tmp, '.');
    }
    assert log[..|log|] == log;
  }

  lemma JoinEmpty()
    ensures Join([], '.') == ""
  {
  }

  lemma HeadIs(line: string)
    ensures Head(line) == Split(line, '_')[0]
  {
  }

  datatype Update = Update(log: seq<string>, count: nat, extended: bool)

  lemma EmptyOccurs(s: string)
    ensures Contains(s, "")
  {
    assert OccursAt(s, "", 0);
  }

  predicate Extends(log: seq<string>, tokenSeq: string)
  {
    |Stripped(log)| < |tokenSeq| && Contains(tokenSeq, Stripped(log))
  }

  // The new part of a longer name, up to the dot before the part already logged.
  function Growth(log: seq<string>, tokenSeq: string): string
    requires Extends(log, tokenSeq)
  {
    if Stripped(log) == "" then tokenSeq else tokenSeq[..|tokenSeq| - |Stripped(log)| - 1]
  }

  // The whole name again, now for TXT.
  predicate Repeats(log: seq<string>, tokenSeq: string, qtype: string)
    requires log != []
  {
    && |Stripped(log)| == |tokenSeq| && Contains(tokenSeq, Stripped(log))
    && qtype == "TXT" && !HasSuffix(log[0], "_TXT")
  }

  // What one query does to a log.
  function Updated(depth: int, log: seq<string>, tokenSeq: string, labels: nat, qtype: string): Update
    requires tokenSeq != ""
  {
    EmptyOccurs(tokenSeq);
    if Extends(log, tokenSeq) then Update([Growth(log, tokenSeq) + "_" + qtype] + log, labels, true)
    else if Repeats(log, tokenSeq, qtype) then Update([IntText(depth - 1) + "_" + qtype] + log, 0, false)
    else Update(log, 0, false)
  }

  method UpdateProbeEntry(depth: int, log: seq<string>, tokenSeq: string, labels: nat, qtype: string)
    returns (updatedSeq: seq<string>, tokenNum: nat, extended: bool)
    requires tokenSeq != ""
    ensures Update(updatedSeq, tokenNum, extended) == Updated(depth, log, tokenSeq, labels, qtype)
  {
    hide Stripped, IntText, Contains, HasSuffix;
    EmptyOccurs(tokenSeq);
    EmptyLog();
    var domain := StripRTypes(log);
    updatedSeq, tokenNum, extended := log, 0, false;
    if |domain| < |tokenSeq| && Contains(tokenSeq, domain) {
      extended := true;
      var newSeq := tokenSeq;
      if |domain| != 0 {
        newSeq := tokenSeq[..|tokenSeq| - |domain| - 1];
      }
      tokenNum := labels;
      updatedSeq := [newSeq + "_" + qtype] + updatedSeq;
    }
    var recentTok := updatedSeq[0];
    if |domain| == |tokenSeq| && Contains(tokenSeq, domain) && qtype == "TXT" && !HasSuffix(recentTok, "_TXT") {
      updatedSeq := [IntText(depth - 1) + "_" + qtype] + updatedSeq;
    }
  }

  lemma EmptyLog()
    ensures Stripped([]) == ""
  {
  }

  // ---------- reading a query ----------

  // Some resolvers put "_." in front of every shortened name.
  function WithoutUnderscore(name: string): string
  {
    if |name| > 2 && name[..2] == "_." then name[2..] else name
  }

  datatype Route = Predefined(value: string) | OutOfZone | BadId | BadMetaData
                 | Ask(id: string, tokenSeq: string, tokens: seq<string>, meta: seq<string>)

  function RouteOf(zone: Zone, q: Query): (r: Route)
    ensures r.Ask? ==> |r.id| >= 10 && r.tokenSeq != "" && |r.meta| >= 3 && r.meta == Split(r.id, '-')
    ensures r.Ask? ==> |q.name| > 0 && Free(r.id, '.')
  {
    var lower := ToLower(q.name);
    if lower in zone.records && zone.records[lower].qtype == q.qtype then Predefined(zone.records[lower].value)
    else
      var name := WithoutUnderscore(lower);
      if |name| <= |zone.base| || !HasSuffix(name, zone.base) then OutOfZone
      else
        var tokenSeq := name[..|name| - |zone.base| - 1];
        var tokens := Split(tokenSeq, '.');
        var id := tokens[|tokens| - 1];
        if |id| < 10 then BadId
        else if |Split(id, '-')| < 3 then BadMetaData
        else
          assert tokenSeq == "" ==> tokens == [""];
          Ask(id, tokenSeq, tokens, Split(id, '-'))
  }

  // ---------- the probe table ----------

  const INDUCTION := "-induction"

  // A query that follows the CNAME of an induction probe is entered under that probe.
  function Key(probes: map<string, Probe>, id: string): string
  {
    if id in probes then id else if id + INDUCTION in probes then id + INDUCTION else id
  }

  function Host(remote: string): string
  {
    Split(remote, ':')[0]
  }

  function Touched(probes: map<string, Probe>, ask: Route, q: Query): Probe
    requires ask.Ask? && ask.tokenSeq != "" && |ask.meta| >= 3
  {
    if ask.id in probes then
      var p := probes[ask.id];
      var u := Updated(p.depth, p.log, ask.tokenSeq, |ask.tokens|, q.qtype);
      p.(log := u.log, current := if u.extended then u.count else p.current)
    else if ask.id + INDUCTION in probes then
      var p := probes[ask.id + INDUCTION];
      var u := Updated(p.depth, p.inducedLog, ask.tokenSeq, |ask.tokens|, q.qtype);
      p.(inducedLog := u.log,
         inducedCurrent := if u.extended then u.count else p.inducedCurrent,
         inducedResolver := if u.extended then Host(q.remote) else p.inducedResolver)
    else
      Probe(ParseIntValue(ask.meta[1]), Host(q.remote), [ask.tokenSeq + "_" + q.qtype], |ask.tokens|,
            |ask.meta| > 3 && ask.meta[3] == "induction", [], 0, "")
  }

  function Enter(zone: Zone, probes: map<string, Probe>, q: Query): map<string, Probe>
  {
    var r := RouteOf(zone, q);
    if r.Ask? then probes[Key(probes, r.id) := Touched(probes, r, q)] else probes
  }

  // ---------- replies ----------

  datatype Rcode = NoError | NxDomain | Refused

  datatype Answer = Answer(rtype: string, value: string)

  datatype Reply = Reply(rcode: Rcode, answers: seq<Answer>)

  const NAME_SERVER := "ns1.tilhempel.info."

  predicate Marked(meta: seq<string>, mode: string)
  {
    |meta| > 3 && meta[3] == mode
  }

  // The name an induction probe is redirected to: a fresh name of full depth without the mark.
  function InducedTarget(zone: Zone, depth: int, meta: seq<string>): string
    requires |meta| >= 3
  {
    Name(if depth >= 1 then depth else 1, Join(meta[..3], '-')) + "." + zone.base
  }

  // Resolver and log of the probe itself, and of what was induced by it.
  function BothLogs(p: Probe): string
  {
    p.resolver + "," + Join(p.log, '|') + "," + p.inducedResolver + "," + Join(p.inducedLog, '|')
  }

  function ReplyTo(zone: Zone, q: Query, meta: seq<string>, p: Probe): Reply
    requires |meta| >= 3 && |q.name| > 0
  {
    if p.induction && p.inducedCurrent == p.depth && q.qtype == "TXT" then
      Reply(NoError, [Answer("TXT", BothLogs(p))])
    else if Marked(meta, "nxopti") then
      if q.name[0] == 'b' then Reply(NoError, [Answer("TXT", "false,,,")]) else Reply(NxDomain, [])
    else if p.current == p.depth then
      if Marked(meta, "induction") then Reply(NoError, [Answer("CNAME", InducedTarget(zone, p.depth, meta))])
      else if q.qtype == "TXT" then
        Reply(NoError, [Answer("TXT", p.resolver + "," + Join(p.log, '|') + ",NULL,NULL")])
      else Reply(NoError, [])
    else if Marked(meta, "qminmode") then Reply(NxDomain, [])
    else Reply(NoError, [Answer("NS", NAME_SERVER)])
  }

  function Respond(zone: Zone, probes: map<string, Probe>, q: Query): Reply
  {
    var r := RouteOf(zone, q);
    match r
    case Predefined(value) => Reply(NoError, [Answer(q.qtype, value)])
    case OutOfZone => Reply(NxDomain, [])
    case BadId => Reply(Refused, [])
    case BadMetaData => Reply(NxDomain, [])
    case Ask(_, _, _, meta) => ReplyTo(zone, q, meta, Touched(probes, r, q))
  }

  class QminDnsServer {
    const zone: Zone
    var probes: map<string, Probe>

    constructor (zone: Zone)
      ensures this.zone == zone && probes == map[]
    {
      this.zone, probes := zone, map[];
    }

    method RequestResponse(q: Query) returns (m: Reply)
      modifies this
      ensures probes == Enter(zone, old(probes), q)
      ensures m == Respond(zone, old(probes), q)
    {
      hide Split, Join, Updated, ToLower, HasSuffix, ParseIntValue, ReplyTo;
      var requestedDomain := ToLower(q.name);
      if requestedDomain in zone.records && zone.records[requestedDomain].qtype == q.qtype {
        return Reply(NoError, [Answer(q.qtype, zone.records[requestedDomain].value)]);
      }
      if |requestedDomain| > 2 && requestedDomain[..2] == "_." {
        requestedDomain := requestedDomain[2..];
      }
      if |requestedDomain| <= |zone.base| || !HasSuffix(requestedDomain, zone.base) {
        return Reply(NxDomain, []);
      }
      var tokenSeq := requestedDomain[..|requestedDomain| - |zone.base| - 1];
      var tokens := Split(tokenSeq, '.');
      var idToken := tokens[|tokens| - 1];
      if |idToken| < 10 {
        return Reply(Refused, []);
      }
      var meta := Split(idToken, '-');
      if |meta| < 3 {
        return Reply(NxDomain, []);
      }
      ghost var ask := RouteOf(zone, q);
      assert ask == Ask(idToken, tokenSeq, tokens, meta);
      ghost var was := probes;
      var probe;
      if idToken in probes {
        probe := probes[idToken];
        var updatedSeq, tokenNum, extended := UpdateProbeEntry(probe.depth, probe.log, tokenSeq, |tokens|, q.qtype);
        probe := probe.(log := updatedSeq);
        if extended {
          probe := probe.(current := tokenNum);
        }
      } else if idToken + INDUCTION in probes {
        probe := probes[idToken + INDUCTION];
        var updatedSeq, tokenNum, extended :=
          UpdateProbeEntry(probe.depth, probe.inducedLog, tokenSeq, |tokens|, q.qtype);
        probe := probe.(inducedLog := updatedSeq);
        if extended {
          probe := probe.(inducedCurrent := tokenNum, inducedResolver := Host(q.remote));
        }
        idToken := idToken + INDUCTION;
      } else {
        probe := Probe(ParseIntValue(meta[1]), Host(q.remote), [tokenSeq + "_" + q.qtype], |tokens|,
                       |meta| > 3 && meta[3] == "induction", [], 0, "");
      }
      assert probe == Touched(was, ask, q) && idToken == Key(was, ask.id);
      probes := probes[idToken := probe];
      m := Answered(zone, q, meta, probe);
    }

    static method Answered(zone: Zone, q: Query, meta: seq<string>, probe: Probe) returns (m: Reply)
      requires |meta| >= 3 && |q.name| > 0
      ensures m == ReplyTo(zone, q, meta, probe)
    {
      hide Join, Name;
      m := Reply(NoError, []);
      if probe.induction && probe.inducedCurrent == probe.depth && q.qtype == "TXT" {
        var text := probe.resolver + "," + Join(probe.log, '|') + "," + probe.inducedResolver;
        m := m.(answers := [Answer("TXT", text + "," + Join(probe.inducedLog, '|'))]);
      } else if |meta| > 3 && meta[3] == "nxopti" {
        if q.name[0] == 'b' {
          m := m.(answers := [Answer("TXT", "false,,,")]);
        } else {
          m := m.(rcode := NxDomain);
        }
      } else if probe.current == probe.depth {
        if |meta| > 3 && meta[3] == "induction" {
          var domain := Countdown(probe.depth, Join(meta[..3], '-'));
          m := m.(answers := [Answer("CNAME", domain + Join(meta[..3], '-') + "." + zone.base)]);
        } else if q.qtype == "TXT" {
          m := m.(answers := [Answer("TXT", probe.resolver + "," + Join(probe.log, '|') + ",NULL,NULL")]);
        }
      } else {
        if |meta| > 3 && meta[3] == "qminmode" {
          m := m.(rcode := NxDomain);
        } else {
          m := m.(answers := [Answer("NS", NAME_SERVER)]);
        }
      }
    }
  }
}
