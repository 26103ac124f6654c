// Which queries the server enters into its table, by the name alone, and what it answers to the others.
module QminZone {
  import opened Text
  import opened QminName
  import opened QminServer
  import opened QminTrack

  predicate IsPredefined(zone: Zone, q: Query)
  {
    ToLower(q.name) in zone.records && zone.records[ToLower(q.name)].qtype == q.qtype
  }

  // The name in small letters, without a leading "_.", is front, one character, and the base domain.
  predicate Below(zone: Zone, q: Query, front: string, sep: char)
  {
    WithoutUnderscore(ToLower(q.name)) == front + [sep] + zone.base
  }

  // A predefined record is answered as it stands, and nothing is entered.
  lemma PredefinedReply(zone: Zone, probes: map<string, Probe>, q: Query)
    requires IsPredefined(zone, q)
    ensures Respond(zone, probes, q) == Reply(NoError, [Answer(q.qtype, zone.records[ToLower(q.name)].value)])
    ensures Enter(zone, probes, q) == probes
  {
    hide ToLower, Split;
  }

  // A name that does not end in the base domain, or is no longer than it, does not exist.
  lemma OutsideReply(zone: Zone, probes: map<string, Probe>, q: Query)
    requires !IsPredefined(zone, q) && forall front, sep :: !Below(zone, q, front, sep)
    ensures Respond(zone, probes, q) == Reply(NxDomain, []) && Enter(zone, probes, q) == probes
  {
    var name := WithoutUnderscore(ToLower(q.name));
    if |name| > |zone.base| && HasSuffix(name, zone.base) {
      CutOff(zone, q);
    }
    hide Split, WithoutUnderscore, ToLower, Below;
  }

  lemma CutOff(zone: Zone, q: Query)
    requires var name := WithoutUnderscore(ToLower(q.name)); |name| > |zone.base| && HasSuffix(name, zone.base)
    ensures var name := WithoutUnderscore(ToLower(q.name)); var n := |name| - |zone.base| - 1;
      Below(zone, q, name[..n], name[n])
  {
    hide WithoutUnderscore, ToLower;
    var name := WithoutUnderscore(ToLower(q.name));
    var n := |name| - |zone.base| - 1;
    assert name == name[..n] + [name[n]] + zone.base;
  }

  lemma BelowRoute(zone: Zone, q: Query, front: string, sep: char)
    requires !IsPredefined(zone, q) && Below(zone, q, front, sep)
    ensures var tokens := Split(front, '.'); var id := tokens[|tokens| - 1];
      RouteOf(zone, q) == if |id| < 10 then BadId
                          else if |Split(id, '-')| < 3 then BadMetaData
                          else Ask(id, front, tokens, Split(id, '-'))
  {
    var name := front + [sep] + zone.base;
    hide Split, WithoutUnderscore, ToLower;
    assert name[|name| - |zone.base|..] == zone.base;
    assert name[..|name| - |zone.base| - 1] == front;
  }

  // Every other name: its last label before the base domain decides. Fewer than ten characters are
  // refused, fewer than two dashes do not exist, and anything else is entered, under that label or
  // under its induction probe, and nowhere else.
  lemma BelowReply(zone: Zone, probes: map<string, Probe>, q: Query, front: string, sep: char)
    requires !IsPredefined(zone, q) && Below(zone, q, front, sep)
    ensures var tokens := Split(front, '.'); var id := tokens[|tokens| - 1];
      var after := Enter(zone, probes, q);
      && (|id| < 10 ==> Respond(zone, probes, q) == Reply(Refused, []) && after == probes)
      && (|id| >= 10 && Count(id, '-') < 2 ==> Respond(zone, probes, q) == Reply(NxDomain, []) && after == probes)
      && (|id| >= 10 && Count(id, '-') >= 2 ==>
            && Carries(zone, q, id)
            && (id in after || id + INDUCTION in after)
            && (forall k :: k in probes ==> k in after)
            && (forall k :: k in after && k != id && k != id + INDUCTION ==> k in probes && after[k] == probes[k]))
  {
    BelowRoute(zone, q, front, sep);
    var tokens := Split(front, '.');
    CountSplit(tokens[|tokens| - 1], '-');
    hide Split, RouteOf, Touched, ReplyTo, Below, IsPredefined;
  }

  // The character in front of the base domain is not looked at: a name that ends in the base domain
  // without being below it is served like one that is.
  lemma SeparatorIgnored(zone: Zone, probes: map<string, Probe>, q: Query, r: Query, front: string, sep: char)
    requires !IsPredefined(zone, q) && !IsPredefined(zone, r)
    requires Below(zone, q, front, '.') && Below(zone, r, front, sep)
    requires q.qtype == r.qtype && q.remote == r.remote && q.name != "" && r.name != "" && q.name[0] == r.name[0]
    ensures Respond(zone, probes, q) == Respond(zone, probes, r)
    ensures Enter(zone, probes, q) == Enter(zone, probes, r)
  {
    hide *;
    BelowRoute(zone, q, front, '.');
    BelowRoute(zone, r, front, sep);
    if RouteOf(zone, q).Ask? {
      SameTouched(zone, probes, q, r);
    }
    SameReply(zone, probes, q, r);
  }

  lemma SameTouched(zone: Zone, probes: map<string, Probe>, q: Query, r: Query)
    requires RouteOf(zone, q) == RouteOf(zone, r) && RouteOf(zone, q).Ask?
    requires q.qtype == r.qtype && q.remote == r.remote
    ensures Touched(probes, RouteOf(zone, q), q) == Touched(probes, RouteOf(zone, r), r)
  {
    hide RouteOf, Updated, Host, ParseIntValue;
  }

  lemma SameReply(zone: Zone, probes: map<string, Probe>, q: Query, r: Query)
    requires RouteOf(zone, q) == RouteOf(zone, r)
    requires q.qtype == r.qtype && q.remote == r.remote && q.name != "" && r.name != "" && q.name[0] == r.name[0]
    requires RouteOf(zone, q).Ask? ==> Touched(probes, RouteOf(zone, q), q) == Touched(probes, RouteOf(zone, r), r)
    ensures Respond(zone, probes, q) == Respond(zone, probes, r) && Enter(zone, probes, q) == Enter(zone, probes, r)
  {
    hide RouteOf, Touched, InducedTarget, BothLogs, Join;
  }
}
