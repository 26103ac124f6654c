// What the server's log says about the queries for the tails of one name: the strict running maxima
// of query depth with their record types, and when that account goes wrong.
module QminLog {
  import opened Text
  import opened QminName
  import opened QminServer
  import opened QminTrack

  // A query for the last `depth` labels of the name.
  datatype Entry = Entry(depth: nat, qtype: string)

  function Deepest(es: seq<Entry>): (m: nat)
    ensures es != [] ==> forall i :: 0 <= i < |es| ==> es[i].depth <= m
  {
    if es == [] then 0
    else
      var before := Deepest(es[..|es| - 1]);
      if es[|es| - 1].depth > before then es[|es| - 1].depth else before
  }

  // The entries deeper than everything before them.
  function Maxima(es: seq<Entry>): seq<Entry>
  {
    if es == [] then []
    else
      var before := es[..|es| - 1];
      if es[|es| - 1].depth > Deepest(before) then Maxima(before) + [es[|es| - 1]] else Maxima(before)
  }

  predicate Rising(ms: seq<Entry>)
  {
    && (forall i :: 0 <= i < |ms| ==> ms[i].depth >= 1)
    && forall i, j :: 0 <= i < j < |ms| ==> ms[i].depth < ms[j].depth
  }

  function Last(ms: seq<Entry>): Entry
  {
    if ms == [] then Entry(0, "") else ms[|ms| - 1]
  }

  lemma {:induction false} MaximaRise(es: seq<Entry>)
    ensures Rising(Maxima(es)) && Last(Maxima(es)).depth == Deepest(es)
    ensures forall e :: e in Maxima(es) ==> e in es
  {
    if es != [] {
      MaximaRise(es[..|es| - 1]);
    }
  }

  // A log line per entry, the newest first: the labels gained, an underscore, the type.
  function Rendered(ms: seq<Entry>, id: string): seq<string>
    requires Rising(ms)
  {
    if ms == [] then []
    else
      var before := ms[..|ms| - 1];
      [Piece(Last(before).depth, Last(ms).depth, id) + "_" + Last(ms).qtype] + Rendered(before, id)
  }

  // The line added when the whole name comes again, now for TXT.
  function Extra(d: nat): string
    requires d >= 1
  {
    Itoa(d - 1) + "_TXT"
  }

  // ---------- single queries ----------

  ghost predicate IdLabel(id: string)
  {
    Free(id, '.') && Free(id, '_') && '-' in id
  }

  lemma HeadOf(p: string, t: string)
    requires Free(p, '_')
    ensures Head(p + "_" + t) == p
  {
    SplitAt(p, '_', t);
  }

  lemma StrippedCons(line: string, log: seq<string>)
    ensures Stripped([line] + log) == if log == [] then Head(line) else Head(line) + "." + Stripped(log)
  {
    hide Split, Join;
    assert ([line] + log)[1..] == log;
    HeadsNonempty(log);
    if log == [] {
      assert Heads([line]) == [] + [Head(line)];
      JoinSnoc([], Head(line), '.');
    } else {
      JoinCons(Head(line), Heads(log), '.');
    }
  }

  // Without its types the log spells the longest name queried.
  lemma {:induction false} RenderedSpells(ms: seq<Entry>, id: string)
    requires Rising(ms) && ms != [] && IdLabel(id)
    ensures Stripped(Rendered(ms, id)) == Name(Last(ms).depth, id)
  {
    hide Stripped, Piece, Head, Name;
    var before := ms[..|ms| - 1];
    var k, m := Last(before).depth, Last(ms).depth;
    PieceFree(k, m, id, '_');
    HeadOf(Piece(k, m, id), Last(ms).qtype);
    StrippedCons(Piece(k, m, id) + "_" + Last(ms).qtype, Rendered(before, id));
    if before == [] {
      WholeName(m, id);
    } else {
      RenderedSpells(before, id);
      NamePiece(k, m, id);
    }
  }

  lemma FreeAt(s: string, c: char)
    requires Free(s, c)
    ensures forall i :: 0 <= i < |s| ==> s[i] != c
  {
  }

  lemma TxtSuffix(p: string, t: string)
    requires Free(t, '_')
    ensures HasSuffix(p + "_" + t, "_TXT") <==> t == "TXT"
  {
    var s := p + "_" + t;
    FreeAt(t, '_');
    assert s[|p|] == '_' && forall x :: |p| < x < |s| ==> s[x] == t[x - |p| - 1];
    if HasSuffix(s, "_TXT") {
      var a := |s| - 4;
      assert s[a..] == "_TXT";
      assert s[a] == '_' && s[a + 1] == 'T' && s[a + 2] == 'X' && s[a + 3] == 'T';
      assert |p| == a;
      assert t == s[|p| + 1..];
    }
    if t == "TXT" {
      assert s == p + "_TXT";
    }
  }

  // The next log after a query, as long as no extra line stands on top.
  function Next(d: nat, ms: seq<Entry>, id: string, e: Entry): Track
    requires Rising(ms) && 1 <= e.depth <= d
  {
    if e.depth > Last(ms).depth then Track(Rendered(ms + [e], id), e.depth)
    else if e.depth == Last(ms).depth && e.qtype == "TXT" && Last(ms).qtype != "TXT" then
      Track([Extra(d)] + Rendered(ms, id), Last(ms).depth)
    else Track(Rendered(ms, id), Last(ms).depth)
  }

  lemma SawGrowth(d: int, t: Track, s: Sighting)
    requires s.tokenSeq != "" && Extends(t.log, s.tokenSeq)
    ensures Saw(d, t, s) == Track([Growth(t.log, s.tokenSeq) + "_" + s.qtype] + t.log, s.labels)
  {
    hide Growth, Extends;
  }

  lemma SawOther(d: int, t: Track, s: Sighting)
    requires s.tokenSeq != "" && !Extends(t.log, s.tokenSeq) && t.log != []
    ensures Saw(d, t, s) ==
      Track((if Repeats(t.log, s.tokenSeq, s.qtype) then [IntText(d - 1) + "_" + s.qtype] else []) + t.log, t.count)
  {
    hide Extends, Repeats, IntText;
    assert [] + t.log == t.log;
  }

  lemma RenderedNext(ms: seq<Entry>, id: string, e: Entry)
    requires Rising(ms) && e.depth > Last(ms).depth
    ensures Rising(ms + [e])
    ensures Rendered(ms + [e], id) == [Piece(Last(ms).depth, e.depth, id) + "_" + e.qtype] + Rendered(ms, id)
  {
    hide Piece;
    assert (ms + [e])[..|ms|] == ms;
  }

  lemma RenderedTop(ms: seq<Entry>, id: string)
    requires Rising(ms) && ms != [] && Free(Last(ms).qtype, '_')
    ensures Rendered(ms, id) != []
    ensures HasSuffix(Rendered(ms, id)[0], "_TXT") <==> Last(ms).qtype == "TXT"
  {
    hide Piece, HasSuffix;
    TxtSuffix(Piece(Last(ms[..|ms| - 1]).depth, Last(ms).depth, id), Last(ms).qtype);
  }

  lemma GrowthIsPiece(ms: seq<Entry>, id: string, n: nat)
    requires Rising(ms) && IdLabel(id) && n > Last(ms).depth
    ensures Extends(Rendered(ms, id), Name(n, id))
    ensures Growth(Rendered(ms, id), Name(n, id)) == Piece(Last(ms).depth, n, id)
  {
    assert id != "";
    hide Stripped, Piece, Name, Contains;
    var m := Last(ms).depth;
    NameNonempty(n, id);
    if ms == [] {
      EmptyLog();
      EmptyOccurs(Name(n, id));
      WholeName(n, id);
    } else {
      RenderedSpells(ms, id);
      NameNonempty(m, id);
      NameLonger(m, n, id);
      NameEndsIn(m, n, id);
      NamePiece(m, n, id);
      assert (Piece(m, n, id) + "." + Name(m, id))[..|Piece(m, n, id)|] == Piece(m, n, id);
    }
  }

  lemma NotLonger(ms: seq<Entry>, id: string, e: Entry)
    requires Rising(ms) && IdLabel(id) && 1 <= e.depth <= Last(ms).depth && Free(Last(ms).qtype, '_')
    ensures Rendered(ms, id) != [] && !Extends(Rendered(ms, id), Name(e.depth, id))
    ensures Repeats(Rendered(ms, id), Name(e.depth, id), e.qtype)
      <==> e.depth == Last(ms).depth && e.qtype == "TXT" && Last(ms).qtype != "TXT"
  {
    hide Stripped, Piece, Name, Contains, HasSuffix;
    RenderedSpells(ms, id);
    RenderedTop(ms, id);
    if e.depth == Last(ms).depth {
      NameEndsIn(e.depth, e.depth, id);
    } else {
      NameLonger(e.depth, Last(ms).depth, id);
    }
  }

  lemma QueryLogged(d: nat, ms: seq<Entry>, id: string, e: Entry)
    requires Rising(ms) && IdLabel(id) && 1 <= e.depth <= d
    requires Free(Last(ms).qtype, '_')
    ensures Name(e.depth, id) != ""
    ensures Saw(d, Track(Rendered(ms, id), Last(ms).depth), Sighting(Name(e.depth, id), e.depth, e.qtype))
      == Next(d, ms, id, e)
  {
    hide *;
    TailNamed(e.depth, id);
    var t := Track(Rendered(ms, id), Last(ms).depth);
    var s := Sighting(Name(e.depth, id), e.depth, e.qtype);
    if e.depth > Last(ms).depth {
      GrowthIsPiece(ms, id, e.depth);
      SawGrowth(d, t, s);
      NextDeeper(d, ms, id, e);
    } else {
      NotLonger(ms, id, e);
      SawOther(d, t, s);
      NextOther(d, ms, id, e);
    }
  }

  lemma TailNamed(n: nat, id: string)
    requires n >= 1 && IdLabel(id)
    ensures Name(n, id) != ""
  {
    NameNonempty(n, id);
  }

  lemma NextDeeper(d: nat, ms: seq<Entry>, id: string, e: Entry)
    requires Rising(ms) && Last(ms).depth < e.depth <= d
    ensures Next(d, ms, id, e)
      == Track([Piece(Last(ms).depth, e.depth, id) + "_" + e.qtype] + Rendered(ms, id), e.depth)
  {
    hide Rendered, Piece;
    RenderedNext(ms, id, e);
  }

  lemma NextOther(d: nat, ms: seq<Entry>, id: string, e: Entry)
    requires Rising(ms) && 1 <= e.depth <= d && e.depth <= Last(ms).depth
    ensures var late := e.depth == Last(ms).depth && e.qtype == "TXT" && Last(ms).qtype != "TXT";
      Next(d, ms, id, e)
      == Track((if late then [IntText(d - 1) + "_" + e.qtype] else []) + Rendered(ms, id), Last(ms).depth)
  {
    hide Rendered, Itoa;
    assert [] + Rendered(ms, id) == Rendered(ms, id);
    assert Itoa(d - 1) + "_" + "TXT" == Extra(d);
  }

  // ---------- after the extra line ----------

  lemma DashAt(a: string, n: string, p: string)
    requires Free(a, '-') && Free(p, '-') && '-' in n && Contains(a + n, p + n)
    ensures HasSuffix(a, p)
  {
    var s, dom := a + n, p + n;
    var i :| 0 <= i <= |s| && OccursAt(s, dom, i);
    var f := FirstDash(n);
    NoDashBefore(a, n);
    OccursChar(s, dom, i, |p| + f);
    assert dom[|p| + f] == '-';
    assert i == |a| - |p|;
    SuffixFromOccurs(a, n, p);
  }

  lemma OccursChar(s: string, p: string, i: int, j: nat)
    requires OccursAt(s, p, i) && j < |p|
    ensures s[i + j] == p[j]
  {
    assert s[i..i + |p|][j] == s[i + j];
  }

  lemma SuffixFromOccurs(a: string, n: string, p: string)
    requires |p| <= |a| && OccursAt(a + n, p + n, |a| - |p|)
    ensures HasSuffix(a, p)
  {
    forall j | 0 <= j < |p| ensures a[|a| - |p| + j] == p[j] {
      OccursChar(a + n, p + n, |a| - |p|, j);
    }
  }

  lemma NoDashBefore(a: string, n: string)
    requires Free(a, '-') && '-' in n
    ensures forall x :: 0 <= x < |a| + FirstDash(n) ==> (a + n)[x] != '-'
  {
    FreeAt(a, '-');
  }

  function FirstDash(n: string): (f: nat)
    requires '-' in n
    ensures f < |n| && n[f] == '-' && forall i :: 0 <= i < f ==> n[i] != '-'
  {
    if n[0] == '-' then 0 else 1 + FirstDash(n[1..])
  }

  // The text of the extra line in front of a shorter name occurs in no other tail of the name.
  lemma ExtraForeign(d: nat, m: nat, k: nat, id: string)
    requires IdLabel(id) && 1 <= m <= d && 1 <= k <= d
    requires |Itoa(d - 1) + "." + Name(m, id)| < |Name(k, id)|
    ensures !Contains(Name(k, id), Itoa(d - 1) + "." + Name(m, id))
  {
    hide Itoa, Contains, Name, Piece;
    if k <= m {
      if k < m { NameLonger(k, m, id); }
    } else if Contains(Name(k, id), Itoa(d - 1) + "." + Name(m, id)) {
      var piece := Piece(m, k, id);
      NamePiece(m, k, id);
      PieceNumbers(m, k, id);
      DigitsFree(Itoa(d - 1), '-');
      NameDash(m, id);
      var a, p := piece + ".", Itoa(d - 1) + ".";
      assert a + Name(m, id) == piece + "." + Name(m, id) && p + Name(m, id) == Itoa(d - 1) + "." + Name(m, id);
      DashAt(a, Name(m, id), p);
      assert a[|a| - |p|..] == p;
      assert piece[|piece| - |Itoa(d - 1)|..] == Itoa(d - 1) by {
        assert a[|a| - |p|..][..|Itoa(d - 1)|] == piece[|piece| - |Itoa(d - 1)|..];
      }
      LastNumber(d, m, k, id);
    }
  }

  lemma NameDash(m: nat, id: string)
    requires m >= 1 && '-' in id
    ensures '-' in Name(m, id)
  {
    if m == 1 {
      NameOne(id);
    } else {
      NamePiece(1, m, id);
      NameOne(id);
    }
  }

  lemma PieceNumbers(m: nat, k: nat, id: string)
    requires 1 <= m < k
    ensures Free(Piece(m, k, id), '-')
  {
    var ls := Labels(k, id)[..k - m];
    forall i | 0 <= i < |ls| ensures Free(ls[i], '-') {
      DigitsFree(Itoa(k - 1 - i), '-');
    }
    JoinFree(ls, '.', '-');
  }

  lemma SuffixFree(s: string, x: string, c: char)
    requires HasSuffix(s, x) && Free(x, c)
    ensures forall k :: |s| - |x| <= k < |s| ==> s[k] != c
  {
    forall k | |s| - |x| <= k < |s| ensures s[k] != c {
      assert s[k] == x[k - (|s| - |x|)];
    }
  }

  lemma LastNumber(d: nat, m: nat, k: nat, id: string)
    requires 1 <= m < k <= d && |Itoa(d - 1) + "." + Name(m, id)| < |Name(k, id)|
    ensures !HasSuffix(Piece(m, k, id), Itoa(d - 1))
  {
    hide Itoa, Name;
    ItoaLengthMonotone(m, d - 1);
    var x := Itoa(d - 1);
    if HasSuffix(Piece(m, k, id), x) {
      if k == m + 1 {
        OneLabelPiece(m, id);
        assert x == Itoa(m);
        NameNext(m, id);
      } else {
        OneLabelPiece(m, id);
        PieceSplit(m, k, id);
        var piece, l := Piece(m, k, id), |Itoa(m)|;
        DigitsFree(x, '.');
        SuffixFree(piece, x, '.');
        assert piece[|piece| - l - 1] == '.';
        assert x == Itoa(m);
        ItoaInjective(d - 1, m);
      }
    }
  }

  lemma OneLabelPiece(m: nat, id: string)
    requires m >= 1
    ensures Piece(m, m + 1, id) == Itoa(m)
  {
    hide Itoa;
    assert Labels(m + 1, id)[..1] == [Itoa(m)];
  }

  lemma PieceSplit(m: nat, k: nat, id: string)
    requires 1 <= m && m + 1 < k
    ensures Piece(m, k, id) == Piece(m + 1, k, id) + "." + Itoa(m)
  {
    hide Itoa, Join;
    var ls := Labels(k, id);
    assert ls[..k - m] == ls[..k - m - 1] + [Itoa(m)];
    JoinSnoc(ls[..k - m - 1], Itoa(m), '.');
  }

  // Once the extra line is there no tail of the name changes the log or the count any more.
  lemma ExtraFreezes(d: nat, ms: seq<Entry>, id: string, e: Entry)
    requires Rising(ms) && ms != [] && IdLabel(id) && 1 <= e.depth <= d && Last(ms).depth <= d
    ensures Name(e.depth, id) != ""
    ensures var t := Track([Extra(d)] + Rendered(ms, id), Last(ms).depth);
      Saw(d, t, Sighting(Name(e.depth, id), e.depth, e.qtype)) == t
  {
    assert id != "";
    hide Stripped, Piece, Name, Itoa, Contains, Head, HasSuffix;
    NameNonempty(e.depth, id);
    var m := Last(ms).depth;
    RenderedSpells(ms, id);
    DigitsFree(Itoa(d - 1), '_');
    HeadOf(Itoa(d - 1), "TXT");
    assert Itoa(d - 1) + "_" + "TXT" == Extra(d);
    StrippedCons(Extra(d), Rendered(ms, id));
    TxtSuffix(Itoa(d - 1), "TXT");
    if |Itoa(d - 1) + "." + Name(m, id)| < |Name(e.depth, id)| {
      ExtraForeign(d, m, e.depth, id);
    }
  }

  // ---------- whole runs ----------

  // The name asked for is already the longest on record, under another type, and now TXT is asked.
  predicate Stray(es: seq<Entry>, i: nat)
    requires i < |es|
  {
    && es[i].qtype == "TXT" && es[i].depth == Deepest(es[..i])
    && Last(Maxima(es[..i])).qtype != "TXT"
  }

  // The first such query, or the length of the run.
  function FirstStray(es: seq<Entry>): (i: nat)
    ensures i <= |es|
  {
    if es == [] then 0
    else
      var n := |es| - 1;
      var i := FirstStray(es[..n]);
      if i < n || Stray(es, n) then i else n + 1
  }

  lemma {:induction false} FirstStrayExact(es: seq<Entry>)
    ensures FirstStray(es) < |es| ==> Stray(es, FirstStray(es))
    ensures forall i :: 0 <= i < FirstStray(es) ==> !Stray(es, i)
  {
    if es != [] {
      var n := |es| - 1;
      hide Maxima, Deepest;
      FirstStrayExact(es[..n]);
      forall i | 0 <= i < n ensures Stray(es, i) == Stray(es[..n], i) {
        assert es[..n][..i] == es[..i];
      }
    }
  }

  ghost predicate Tails(d: nat, es: seq<Entry>)
  {
    forall i :: 0 <= i < |es| ==> 1 <= es[i].depth <= d && Free(es[i].qtype, '_')
  }

  function Sighted(id: string, es: seq<Entry>): (ss: seq<Sighting>)
    requires id != "" && forall i :: 0 <= i < |es| ==> es[i].depth >= 1
    ensures |ss| == |es| && forall i :: 0 <= i < |ss| ==> ss[i].tokenSeq != ""
    ensures forall i :: 0 <= i < |ss| ==> ss[i] == Sighting(Name(es[i].depth, id), es[i].depth, es[i].qtype)
  {
    if es == [] then []
    else
      var e := es[|es| - 1];
      NameNonempty(e.depth, id);
      Sighted(id, es[..|es| - 1]) + [Sighting(Name(e.depth, id), e.depth, e.qtype)]
  }

  // The log and the count after any run of queries for tails of one name.
  function Account(d: nat, id: string, es: seq<Entry>): Track
    requires d >= 1
  {
    var i := FirstStray(es);
    MaximaRise(es[..i]);
    Track((if i < |es| then [Extra(d)] else []) + Rendered(Maxima(es[..i]), id), Deepest(es[..i]))
  }

  lemma {:induction false} LogIsAccount(d: nat, id: string, es: seq<Entry>)
    requires d >= 1 && Tails(d, es) && IdLabel(id)
    ensures id != "" && SawAll(d, Sighted(id, es)) == Account(d, id, es)
  {
    assert id != "";
    if es != [] {
      var n := |es| - 1;
      LogIsAccount(d, id, es[..n]);
      hide Saw, Name, Extra, IdLabel, Free;
      assert Sighted(id, es)[..n] == Sighted(id, es[..n]);
      AccountNext(d, id, es);
    }
  }

  lemma AccountNext(d: nat, id: string, es: seq<Entry>)
    requires d >= 1 && Tails(d, es) && IdLabel(id) && es != []
    ensures var e := es[|es| - 1];
      && Name(e.depth, id) != ""
      && Saw(d, Account(d, id, es[..|es| - 1]), Sighting(Name(e.depth, id), e.depth, e.qtype)) == Account(d, id, es)
  {
    var n := |es| - 1;
    var e, before := es[n], es[..n];
    var i := FirstStray(before);
    MaximaRise(before[..i]);
    FirstStrayExact(before);
    assert 1 <= e.depth <= d;
    var ms := Maxima(before[..i]);
    assert before[..i] == es[..i];
    if i < n {
      StrayDeep(d, before, i);
      assert FirstStray(es) == i;
      hide Saw, Name, Extra, IdLabel, Free, Rendered, Maxima, Deepest, Stray;
      assert [Extra(d)] + Rendered(ms, id) == Account(d, id, before).log;
      ExtraFreezes(d, ms, id, e);
    } else {
      assert before[..i] == before;
      LastPlain(d, before);
      StrayStep(d, id, es);
      hide Saw, Name, Extra, IdLabel, Free, Rendered, Maxima, Deepest, Stray, Last;
      assert [] + Rendered(ms, id) == Rendered(ms, id);
      QueryLogged(d, ms, id, e);
    }
  }

  lemma StrayDeep(d: nat, es: seq<Entry>, i: nat)
    requires Tails(d, es) && i < |es| && Stray(es, i)
    ensures Maxima(es[..i]) != [] && 1 <= Deepest(es[..i]) <= d
  {
    MaximaRise(es[..i]);
  }

  lemma LastPlain(d: nat, es: seq<Entry>)
    requires Tails(d, es)
    ensures Free(Last(Maxima(es)).qtype, '_')
  {
    MaximaRise(es);
    if Maxima(es) != [] {
      assert Last(Maxima(es)) in Maxima(es);
    }
  }

  // How the account moves on a query that no stray one precedes.
  lemma StrayStep(d: nat, id: string, es: seq<Entry>)
    requires d >= 1 && Tails(d, es) && es != [] && FirstStray(es[..|es| - 1]) == |es| - 1
    ensures Rising(Maxima(es[..|es| - 1]))
    ensures Account(d, id, es) == Next(d, Maxima(es[..|es| - 1]), id, es[|es| - 1])
  {
    var n := |es| - 1;
    var e, ms := es[n], Maxima(es[..n]);
    MaximaRise(es[..n]);
    MaximaRise(es);
    MaximaStep(es);
    assert 1 <= e.depth <= d;
    StrayMeans(es);
    hide Rendered, Maxima, Deepest, Extra, Stray, Rising, Tails, Last;
    assert es[..|es|] == es;
    assert [] + Rendered(Maxima(es), id) == Rendered(Maxima(es), id);
  }

  lemma StrayMeans(es: seq<Entry>)
    requires es != []
    ensures var n := |es| - 1;
      Stray(es, n) <==> es[n].qtype == "TXT" && es[n].depth == Deepest(es[..n]) && Last(Maxima(es[..n])).qtype != "TXT"
  {
  }

  lemma MaximaStep(es: seq<Entry>)
    requires es != []
    ensures var n := |es| - 1;
      if es[n].depth > Deepest(es[..n]) then Maxima(es) == Maxima(es[..n]) + [es[n]] && Deepest(es) == es[n].depth
      else Maxima(es) == Maxima(es[..n]) && Deepest(es) == Deepest(es[..n])
  {
  }

  // ---------- when the account is right ----------

  ghost predicate TxtOnlyAtFullDepth(d: nat, es: seq<Entry>)
  {
    forall i :: 0 <= i < |es| && es[i].qtype == "TXT" ==> es[i].depth == d
  }

  lemma {:induction false} NothingDeeper(es: seq<Entry>, i: nat)
    requires i <= |es| && forall j :: i <= j < |es| ==> es[j].depth <= Deepest(es[..i])
    ensures Maxima(es) == Maxima(es[..i]) && Deepest(es) == Deepest(es[..i])
  {
    if i == |es| {
      assert es[..i] == es;
    } else {
      var before := es[..|es| - 1];
      assert before[..i] == es[..i];
      NothingDeeper(before, i);
    }
  }

  lemma {:induction false} DeepestBound(d: nat, es: seq<Entry>)
    requires Tails(d, es)
    ensures Deepest(es) <= d
  {
    if es != [] {
      DeepestBound(d, es[..|es| - 1]);
    }
  }

  lemma AccountFrom(d: nat, id: string, es: seq<Entry>)
    requires d >= 1 && TxtOnlyAtFullDepth(d, es) && Tails(d, es)
    ensures Rising(Maxima(es))
    ensures Account(d, id, es)
      == Track((if FirstStray(es) < |es| then [Extra(d)] else []) + Rendered(Maxima(es), id), Deepest(es))
  {
    var i := FirstStray(es);
    MaximaRise(es);
    FirstStrayExact(es);
    if i < |es| {
      assert es[i].depth == d == Deepest(es[..i]);
      NothingDeeper(es, i);
    } else {
      assert es[..i] == es;
    }
  }

  // With TXT asked at full depth only: the log holds exactly the maxima, plus one extra line if the
  // full depth was first seen under another type; the count is the longest query's label count; and
  // without the extra line the stripped log spells that query.
  lemma FullDepthAccount(d: nat, id: string, es: seq<Entry>)
    requires d >= 1 && Tails(d, es) && IdLabel(id) && TxtOnlyAtFullDepth(d, es)
    ensures Rising(Maxima(es)) && id != ""
    ensures var t := SawAll(d, Sighted(id, es));
      && t.log == (if FirstStray(es) < |es| then [Extra(d)] else []) + Rendered(Maxima(es), id)
      && t.count == Deepest(es)
      && (es != [] && FirstStray(es) == |es| ==>
            Deepest(es) >= 1 && Stripped(t.log) == Name(Deepest(es), id) && |Split(Stripped(t.log), '.')| == t.count)
  {
    LogIsAccount(d, id, es);
    MaximaRise(es);
    AccountFrom(d, id, es);
    if es != [] {
      assert es[0].depth >= 1;
      LogSpells(es, id);
      hide *;
      assert [] + Rendered(Maxima(es), id) == Rendered(Maxima(es), id);
    }
  }

  lemma LogSpells(es: seq<Entry>, id: string)
    requires Deepest(es) >= 1 && IdLabel(id)
    ensures Rising(Maxima(es)) && Stripped(Rendered(Maxima(es), id)) == Name(Deepest(es), id)
    ensures |Split(Name(Deepest(es), id), '.')| == Deepest(es)
  {
    MaximaRise(es);
    hide Stripped, Split, Name, Rendered;
    RenderedSpells(Maxima(es), id);
    NameLabels(Deepest(es), id);
  }

  // The extra line appears exactly when the full depth, first asked for under another type, is asked
  // for again under TXT.
  lemma ExtraIff(d: nat, es: seq<Entry>)
    requires d >= 1 && Tails(d, es) && TxtOnlyAtFullDepth(d, es)
    ensures FirstStray(es) < |es| <==>
      exists i :: 0 <= i < |es| && es[i] == Entry(d, "TXT") && LateTxt(d, es, i)
  {
    FirstStrayExact(es);
    forall i | 0 <= i < |es|
      ensures Stray(es, i) <==> es[i] == Entry(d, "TXT") && LateTxt(d, es, i)
    {
      StrayIsLate(d, es, i);
    }
    hide Stray, LateTxt, TxtOnlyAtFullDepth, Tails, FirstStray;
  }

  lemma StrayIsLate(d: nat, es: seq<Entry>, i: nat)
    requires i < |es| && TxtOnlyAtFullDepth(d, es)
    ensures Stray(es, i) <==> es[i] == Entry(d, "TXT") && LateTxt(d, es, i)
  {
    hide Maxima, Deepest, Last;
    assert es[i].qtype == "TXT" ==> es[i].depth == d;
  }

  ghost predicate LateTxt(d: nat, es: seq<Entry>, i: nat)
    requires i < |es|
  {
    Deepest(es[..i]) == d && Last(Maxima(es[..i])).qtype != "TXT"
  }

  // In general: the full name is recorded as complete exactly when it was asked for and every TXT
  // query that repeats the longest name so far, first seen under another type, was for the full name.
  lemma CompletesIff(d: nat, id: string, es: seq<Entry>)
    requires d >= 1 && Tails(d, es) && IdLabel(id)
    ensures id != ""
    ensures SawAll(d, Sighted(id, es)).count == d <==>
      && (exists i :: 0 <= i < |es| && es[i].depth == d)
      && (forall i :: 0 <= i < |es| && Stray(es, i) ==> es[i].depth == d)
  {
    assert id != "";
    LogIsAccount(d, id, es);
    CountOf(d, id, es);
    hide *;
    StrayCompletes(d, es);
  }

  lemma StrayCompletes(d: nat, es: seq<Entry>)
    requires d >= 1 && Tails(d, es)
    ensures Deepest(es[..FirstStray(es)]) == d <==>
      && (exists i :: 0 <= i < |es| && es[i].depth == d)
      && (forall i :: 0 <= i < |es| && Stray(es, i) ==> es[i].depth == d)
  {
    hide Stray, FirstStray, Maxima;
    if Deepest(es[..FirstStray(es)]) == d {
      StraysFull(d, es);
    }
    if (exists i :: 0 <= i < |es| && es[i].depth == d)
       && (forall i :: 0 <= i < |es| && Stray(es, i) ==> es[i].depth == d) {
      FullAttained(d, es);
    }
  }

  lemma StraysFull(d: nat, es: seq<Entry>)
    requires d >= 1 && Tails(d, es) && Deepest(es[..FirstStray(es)]) == d
    ensures exists i :: 0 <= i < |es| && es[i].depth == d
    ensures forall i :: 0 <= i < |es| && Stray(es, i) ==> es[i].depth == d
  {
    var f := FirstStray(es);
    FirstStrayExact(es);
    hide Stray, FirstStray, Maxima;
    DeepestAttained(es[..f]);
    var x :| 0 <= x < f && es[..f][x].depth == d;
    assert es[x].depth == d;
    forall i | 0 <= i < |es| && Stray(es, i) ensures es[i].depth == d {
      StrayAt(es, i);
      DeepestBound(d, es[..i]);
      assert i >= f && es[..i][x] == es[x];
    }
  }

  lemma FullAttained(d: nat, es: seq<Entry>)
    requires Tails(d, es)
    requires exists i :: 0 <= i < |es| && es[i].depth == d
    requires forall i :: 0 <= i < |es| && Stray(es, i) ==> es[i].depth == d
    ensures Deepest(es[..FirstStray(es)]) == d
  {
    var f := FirstStray(es);
    FirstStrayExact(es);
    hide Stray, FirstStray, Maxima;
    if f == |es| {
      assert es[..f] == es;
      DeepestBound(d, es);
    } else {
      StrayAt(es, f);
    }
  }

  lemma StrayAt(es: seq<Entry>, i: nat)
    requires i < |es| && Stray(es, i)
    ensures es[i].depth == Deepest(es[..i])
  {
  }

  lemma {:induction false} DeepestAttained(es: seq<Entry>)
    ensures Deepest(es) >= 1 ==> exists i :: 0 <= i < |es| && es[i].depth == Deepest(es)
  {
    if es != [] {
      var n := |es| - 1;
      DeepestAttained(es[..n]);
      if Deepest(es) >= 1 {
        if es[n].depth > Deepest(es[..n]) {
          assert es[n].depth == Deepest(es);
        } else {
          var i :| 0 <= i < n && es[..n][i].depth == Deepest(es[..n]);
          assert es[i].depth == Deepest(es);
        }
      }
    }
  }

  function EarlyTxt(d: nat): seq<Entry>
    requires d >= 2
  {
    [Entry(d - 1, "A"), Entry(d - 1, "TXT"), Entry(d, "TXT")]
  }

  // One TXT query below full depth, for a name first asked for under type A, and the full name that
  // follows is never recorded.
  lemma EarlyTxtBlocks(d: nat, id: string)
    requires d >= 2 && IdLabel(id)
    ensures id != "" && SawAll(d, Sighted(id, EarlyTxt(d))).count == d - 1
  {
    var es := EarlyTxt(d);
    FirstTwo(es);
    LogIsAccount(d, id, es);
    hide *;
    assert FirstStray(es) == 1 && Deepest(es[..1]) == d - 1;
    CountOf(d, id, es);
  }

  lemma CountOf(d: nat, id: string, es: seq<Entry>)
    requires d >= 1
    ensures Account(d, id, es).count == Deepest(es[..FirstStray(es)])
  {
  }

  lemma FirstTwo(es: seq<Entry>)
    requires |es| == 3 && es[0].depth == es[1].depth >= 1 && es[0].qtype == "A" && es[1].qtype == "TXT"
    ensures FirstStray(es) == 1 && Deepest(es[..1]) == es[0].depth
  {
    assert es[..1] == [es[0]] && es[..1][..0] == [] && es[..0] == [];
    assert Deepest(es[..1]) == es[0].depth;
    assert Maxima(es[..1]) == [es[0]];
    assert !Stray(es, 0) && Stray(es, 1);
    FirstStrayExact(es);
  }
}
