// Whole runs of the server: what it has logged about one id label depends only on the queries that
// carry this label.
module QminTrack {
  import opened Text
  import opened QminName
  import opened QminServer

  // What is logged about the queries carrying an id label, and how many labels the longest had.
  datatype Track = Track(log: seq<string>, count: int)

  const UNSEEN := Track([], 0)

  // The log of the id's own probe, or what an induction probe logged on its behalf.
  function Tracked(probes: map<string, Probe>, id: string): Track
  {
    if id in probes then Track(probes[id].log, probes[id].current)
    else if id + INDUCTION in probes then
      Track(probes[id + INDUCTION].inducedLog, probes[id + INDUCTION].inducedCurrent)
    else UNSEEN
  }

  datatype Sighting = Sighting(tokenSeq: string, labels: nat, qtype: string)

  function Saw(depth: int, t: Track, s: Sighting): Track
    requires s.tokenSeq != ""
  {
    var u := Updated(depth, t.log, s.tokenSeq, s.labels, s.qtype);
    Track(u.log, if u.extended then u.count else t.count)
  }

  function SawAll(depth: int, ss: seq<Sighting>): Track
    requires forall i :: 0 <= i < |ss| ==> ss[i].tokenSeq != ""
  {
    if ss == [] then UNSEEN else Saw(depth, SawAll(depth, ss[..|ss| - 1]), ss[|ss| - 1])
  }

  function Serve(zone: Zone, qs: seq<Query>): map<string, Probe>
  {
    if qs == [] then map[] else Enter(zone, Serve(zone, qs[..|qs| - 1]), qs[|qs| - 1])
  }

  predicate Carries(zone: Zone, q: Query, id: string)
  {
    RouteOf(zone, q).Ask? && RouteOf(zone, q).id == id
  }

  function SightingOf(zone: Zone, q: Query): (s: Sighting)
    requires RouteOf(zone, q).Ask?
    ensures s.tokenSeq != ""
  {
    var r := RouteOf(zone, q);
    Sighting(r.tokenSeq, |r.tokens|, q.qtype)
  }

  // The queries that carry the id label, in order.
  function Sightings(zone: Zone, qs: seq<Query>, id: string): (ss: seq<Sighting>)
    ensures forall i :: 0 <= i < |ss| ==> ss[i].tokenSeq != ""
  {
    if qs == [] then []
    else
      var q := qs[|qs| - 1];
      var before := Sightings(zone, qs[..|qs| - 1], id);
      if Carries(zone, q, id) then before + [SightingOf(zone, q)] else before
  }

  // The depth printed in an id label.
  function DepthOf(id: string): int
  {
    var meta := Split(id, '-');
    if |meta| < 2 then 0 else ParseIntValue(meta[1])
  }

  predicate DepthsNamed(probes: map<string, Probe>)
  {
    forall k :: k in probes ==> probes[k].depth == DepthOf(k)
  }

  lemma InductionDepth(id: string)
    requires |Split(id, '-')| >= 2
    ensures DepthOf(id + INDUCTION) == DepthOf(id)
  {
    hide Split, ParseIntValue;
    SplitConcat(id, "induction", '-');
    assert id + "-" + "induction" == id + INDUCTION;
  }

  lemma InductionInjective(a: string, b: string)
    requires a + INDUCTION == b + INDUCTION
    ensures a == b
  {
    assert a == (a + INDUCTION)[..|a|];
    assert b == (b + INDUCTION)[..|b|];
  }

  lemma FirstSighting(depth: int, s: Sighting)
    requires s.tokenSeq != ""
    ensures Saw(depth, UNSEEN, s) == Track([s.tokenSeq + "_" + s.qtype], s.labels)
  {
    EmptyLog();
    EmptyOccurs(s.tokenSeq);
    hide Stripped, Contains;
  }

  // One query changes what is tracked under its own label only, and there exactly by one sighting.
  lemma QueryTracked(zone: Zone, probes: map<string, Probe>, q: Query, id: string)
    requires DepthsNamed(probes)
    ensures DepthsNamed(Enter(zone, probes, q))
    ensures Tracked(Enter(zone, probes, q), id) ==
      if Carries(zone, q, id) then Saw(DepthOf(id), Tracked(probes, id), SightingOf(zone, q)) else Tracked(probes, id)
  {
    hide RouteOf, Updated, Split;
    var r := RouteOf(zone, q);
    if r.Ask? {
      TouchedDepth(zone, probes, q);
      var k := Key(probes, r.id);
      if r.id == id {
        OwnQuery(zone, probes, q);
      } else {
        if r.id + INDUCTION == id + INDUCTION {
          InductionInjective(r.id, id);
        }
      }
    }
  }

  lemma TouchedDepth(zone: Zone, probes: map<string, Probe>, q: Query)
    requires DepthsNamed(probes) && RouteOf(zone, q).Ask?
    ensures var r := RouteOf(zone, q);
      Touched(probes, r, q).depth == DepthOf(Key(probes, r.id)) == DepthOf(r.id)
  {
    var r := RouteOf(zone, q);
    InductionDepth(r.id);
    hide Split, RouteOf, Updated;
  }

  lemma OwnQuery(zone: Zone, probes: map<string, Probe>, q: Query)
    requires DepthsNamed(probes) && RouteOf(zone, q).Ask?
    ensures var r := RouteOf(zone, q);
      Tracked(Enter(zone, probes, q), r.id) == Saw(DepthOf(r.id), Tracked(probes, r.id), SightingOf(zone, q))
  {
    var r := RouteOf(zone, q);
    InductionDepth(r.id);
    hide Split, RouteOf, Updated;
    if r.id !in probes {
      assert r.id + INDUCTION != r.id;
      if r.id + INDUCTION !in probes {
        FirstSighting(DepthOf(r.id), SightingOf(zone, q));
      }
    }
  }

  // Whatever other queries come in between, the tracked log is the fold of the label's own queries.
  lemma {:induction false} RunTracked(zone: Zone, qs: seq<Query>, id: string)
    ensures DepthsNamed(Serve(zone, qs))
    ensures Tracked(Serve(zone, qs), id) == SawAll(DepthOf(id), Sightings(zone, qs, id))
  {
    hide Tracked, Saw, Enter, Carries;
    if qs == [] {
      assert Tracked(map[], id) == UNSEEN by {
        NothingTracked(id);
      }
    } else {
      RunTracked(zone, qs[..|qs| - 1], id);
      QueryTracked(zone, Serve(zone, qs[..|qs| - 1]), qs[|qs| - 1], id);
    }
  }

  lemma NothingTracked(id: string)
    ensures Tracked(map[], id) == UNSEEN
  {
  }

  // Only labels that were asked for have a probe.
  lemma {:induction false} ProbesAsked(zone: Zone, qs: seq<Query>, id: string)
    requires forall i :: 0 <= i < |qs| ==> !Carries(zone, qs[i], id)
    ensures id !in Serve(zone, qs)
  {
    if qs != [] {
      hide RouteOf, Touched;
      ProbesAsked(zone, qs[..|qs| - 1], id);
      assert !Carries(zone, qs[|qs| - 1], id);
    }
  }
}
