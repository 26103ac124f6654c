// From queued TCP chains to the result table: the CSV rows the scanner writes for a chain, and the
// script that folds those rows into one record per probe and classifies it.
module TcpPostproc {
  import opened Text
  import opened Wrappers
  import T = TcpTracker

  function Quad(ip: nat): seq<string>
  {
    [Itoa(ip / 0x100_0000), Itoa((ip / 0x1_0000) % 256), Itoa((ip / 0x100) % 256), Itoa(ip % 256)]
  }

  // Dotted-quad text of an IPv4 address.
  function IpText(ip: nat): string
  {
    Join(Quad(ip), '.')
  }

  // Four numbers separated by dots, the most significant first: read in base 256 they are the address.
  lemma IpTextValue(ip: nat)
    ensures var parts := Split(IpText(ip), '.');
      && |parts| == 4 && (forall i :: 0 <= i < 4 ==> AllDigits(parts[i]))
      && (forall i :: 1 <= i < 4 ==> DigitsValue(parts[i]) < 256)
      && ((DigitsValue(parts[0]) * 256 + DigitsValue(parts[1])) * 256 + DigitsValue(parts[2])) * 256
         + DigitsValue(parts[3]) == ip
  {
    QuadFree(ip, '.');
    hide Split, Join, Itoa, DigitsValue;
    SplitJoin(Quad(ip), '.');
    ItoaValue(ip / 0x100_0000);
    ItoaValue((ip / 0x1_0000) % 256);
    ItoaValue((ip / 0x100) % 256);
    ItoaValue(ip % 256);
    Octets(ip);
  }

  lemma IpTextInjective(x: nat, y: nat)
    requires IpText(x) == IpText(y)
    ensures x == y
  {
    hide IpText, Split, DigitsValue;
    IpTextValue(x);
    IpTextValue(y);
  }

  lemma Octets(x: nat)
    ensures x == 0x100_0000 * (x / 0x100_0000) + 0x1_0000 * ((x / 0x1_0000) % 256)
                 + 0x100 * ((x / 0x100) % 256) + x % 256
  {
    NextOctet(x, 0x100);
    NextOctet(x, 0x1_0000);
  }

  lemma NextOctet(x: nat, d: nat)
    requires d == 0x100 || d == 0x1_0000
    ensures x / (256 * d) == (x / d) / 256
  {
    var q := (x / d) / 256;
    assert x / d == 256 * q + (x / d) % 256;
    assert x == d * (x / d) + x % d;
    if d == 0x100 {
      assert x == 0x1_0000 * q + (0x100 * ((x / 0x100) % 256) + x % 0x100);
    } else {
      assert x == 0x100_0000 * q + (0x1_0000 * ((x / 0x1_0000) % 256) + x % 0x1_0000);
    }
  }

  lemma QuadFree(ip: nat, c: char)
    requires !IsDigit(c)
    ensures forall i :: 0 <= i < 4 ==> Free(Quad(ip)[i], c)
  {
  }

  lemma IpTextFree(ip: nat, c: char)
    requires !IsDigit(c) && c != '.'
    ensures Free(IpText(ip), c)
  {
    QuadFree(ip, c);
    JoinFree(Quad(ip), '.', c);
  }

  // 91.216.216.216
  const CONTROL: nat := 0x5BD8_D8D8
  const REFERENCE_IP := "91.216.216.216"

  lemma ReferenceText()
    ensures IpText(CONTROL) == REFERENCE_IP
  {
    ReferenceQuad();
    hide Itoa, Quad, Join;
    JoinFour("91", "216", "216", "216");
    assert "91" + "." + "216" + "." + "216" + "." + "216" == REFERENCE_IP;
  }

  lemma ReferenceQuad()
    ensures Quad(CONTROL) == ["91", "216", "216", "216"]
  {
    ReferenceOctets();
    hide Itoa;
    assert CONTROL / 0x100_0000 == 91 && (CONTROL / 0x1_0000) % 256 == 216;
    assert (CONTROL / 0x100) % 256 == 216 && CONTROL % 256 == 216;
  }

  lemma ReferenceOctets()
    ensures Itoa(91) == "91" && Itoa(216) == "216"
  {
    assert Itoa(9) == "9" && Itoa(2) == "2";
    assert Itoa(21) == Itoa(2) + "1";
    assert Itoa(216) == Itoa(21) + "6";
  }

  lemma JoinFour(a: string, b: string, c: string, d: string)
    ensures Join([a, b, c, d], '.') == a + "." + b + "." + c + "." + d
  {
    hide Join;
    JoinCons(a, [b, c, d], '.');
    JoinCons(b, [c, d], '.');
    JoinCons(c, [d], '.');
    JoinOne(d);
    assert [a] + [b, c, d] == [a, b, c, d] && [b] + [c, d] == [b, c, d] && [c] + [d] == [c, d];
  }

  lemma JoinOne(d: string)
    ensures Join([d], '.') == d
  {
  }

  // ---------- what the scanner writes ----------

  // One CSV line; the text columns are the ones the script looks at.
  datatype Row = Row(id: string, ts: int, ip: string, port: int, seqno: string, ack: string, flags: string,
                     recs: string)

  // One letter per flag that is set, in this order.
  function FlagText(f: T.Flags): string
  {
    var s := if f.syn then "S" else "";
    var r := if f.rst then s + "R" else s;
    var n := if f.fin then r + "F" else r;
    var p := if f.psh then n + "P" else n;
    if f.ack then p + "A" else p
  }

  function IpTexts(recs: seq<nat>): (r: seq<string>)
    ensures |r| == |recs|
    ensures forall i :: 0 <= i < |r| ==> r[i] == IpText(recs[i])
  {
    seq(|recs|, i requires 0 <= i < |recs| => IpText(recs[i]))
  }

  function RowOf(n: T.Node): Row
    requires n.id >= 0
  {
    Row(Itoa(n.id), n.ts, IpText(n.ip), n.port, IntText(n.seqno), IntText(n.ack), FlagText(n.flags),
        Join(IpTexts(n.recs), ','))
  }

  // The answer column is built up with a comma after every address but the last.
  method ScanItemToStrarr(n: T.Node) returns (row: Row)
    requires n.id >= 0
    ensures row == RowOf(n)
  {
    hide IpText, Join, Itoa, IntText;
    var flags := "";
    if n.flags.syn { flags := "S"; }
    if n.flags.rst { flags := flags + "R"; }
    if n.flags.fin { flags := flags + "F"; }
    if n.flags.psh { flags := flags + "P"; }
    if n.flags.ack { flags := flags + "A"; }
    var answers := "";
    ghost var texts := IpTexts(n.recs);
    JoinNone();
    for i := 0 to |n.recs|
      invariant answers == if 0 < i < |n.recs| then Join(texts[..i], ',') + "," else Join(texts[..i], ',')
    {
      JoinSnoc(texts[..i], texts[i], ',');
      assert texts[..i + 1] == texts[..i] + [texts[i]];
      answers := answers + IpText(n.recs[i]);
      if i != |n.recs| - 1 {
        answers := answers + ",";
      }
    }
    assert texts[..|n.recs|] == texts;
    row := Row(Itoa(n.id), n.ts, IpText(n.ip), n.port, IntText(n.seqno), IntText(n.ack), flags, answers);
  }

  lemma JoinNone()
    ensures Join([], ',') == ""
  {
  }

  function RowsOf(chain: seq<T.Node>): seq<Row>
    requires forall i :: 0 <= i < |chain| ==> chain[i].id >= 0
  {
    if chain == [] then [] else [RowOf(chain[0])] + RowsOf(chain[1..])
  }

  ghost predicate AllFull(L: nat, chains: seq<seq<T.Node>>)
  {
    forall i :: 0 <= i < |chains| ==> T.FullChain(L, chains[i])
  }

  ghost function AllRows(L: nat, chains: seq<seq<T.Node>>): seq<Row>
    requires AllFull(L, chains)
  {
    if chains == [] then []
    else AllRows(L, chains[..|chains| - 1]) + RowsOf(chains[|chains| - 1])
  }

  // ---------- the script ----------

  datatype OutItem = OutItem(
    target: Option<string>,
    response: Option<string>,
    arecord: Option<string>,
    tsReq: Option<int>,
    tsResp: Option<int>,
    integrity: bv8,
    odnsType: string)

  const BLANK := OutItem(None, None, None, None, None, 0, "")

  function Classify(item: OutItem): OutItem
  {
    item.(odnsType :=
      if item.response != item.target then "Transparent Forwarder"
      else if item.arecord == item.response then "Resolver"
      else "Forwarder")
  }

  // What an answer does to the record of its id.
  function WithAnswer(item: OutItem, row: Row): OutItem
  {
    var seen := item.(response := Some(row.ip), tsResp := Some(row.ts));
    var arecs := Split(row.recs, ',');
    if |arecs| != 2 || REFERENCE_IP !in arecs then seen
    else
      var pos := if arecs[0] == REFERENCE_IP then 0 else 1;
      Classify(seen.(arecord := Some(arecs[1 - pos]), integrity := item.integrity | 1))
  }

  // What one line does to the record of its id.
  function Update(item: OutItem, row: Row): OutItem
  {
    if row.flags == "S" then
      item.(target := Some(row.ip), tsReq := Some(row.ts), integrity := item.integrity | 4)
    else if row.flags == "SA" then
      item.(integrity := item.integrity | 2)
    else if row.flags == "PA" || row.flags == "FPA" then WithAnswer(item, row)
    else item
  }

  // The output dictionary, which remembers the order in which ids first appeared.
  datatype Table = Table(items: map<string, OutItem>, order: seq<string>)

  const EMPTY := Table(map[], [])

  function Line(t: Table, row: Row): Table
  {
    var known := row.id in t.items;
    Table(t.items[row.id := Update(if known then t.items[row.id] else BLANK, row)],
          if known then t.order else t.order + [row.id])
  }

  function Lines(t: Table, rows: seq<Row>): Table
  {
    if rows == [] then t else Line(Lines(t, rows[..|rows| - 1]), rows[|rows| - 1])
  }

  datatype OutRow = OutRow(id: string, target: Option<string>, response: Option<string>, arecord: Option<string>,
                           odnsType: string, tsReq: Option<int>, tsResp: Option<int>)

  function ToOutRow(id: string, item: OutItem): OutRow
  {
    OutRow(id, item.target, item.response, item.arecord, item.odnsType, item.tsReq, item.tsResp)
  }

  ghost predicate Listed(t: Table)
  {
    forall i :: 0 <= i < |t.order| ==> t.order[i] in t.items
  }

  // The rows written for the first n ids.
  ghost function Emit(t: Table, n: nat): seq<OutRow>
    requires Listed(t) && n <= |t.order|
  {
    if n == 0 then []
    else
      var id := t.order[n - 1];
      Emit(t, n - 1) + if t.items[id].integrity == 7 then [ToOutRow(id, t.items[id])] else []
  }

  class PostProcessor {
    var items: map<string, OutItem>
    var order: seq<string>

    function View(): Table
      reads this
    {
      Table(items, order)
    }

    constructor ()
      ensures View() == EMPTY
    {
      items, order := map[], [];
    }

    method ReadLine(row: Row)
      requires Listed(View())
      modifies this
      ensures Listed(View())
      ensures View() == Line(old(View()), row)
    {
      hide Update;
      var outitem := BLANK;
      if row.id in items {
        outitem := items[row.id];
      } else {
        order := order + [row.id];
      }
      outitem := FillIn(outitem, row);
      items := items[row.id := outitem];
    }

    static method FillIn(item: OutItem, row: Row) returns (outitem: OutItem)
      ensures outitem == Update(item, row)
    {
      hide WithAnswer;
      outitem := item;
      if row.flags == "S" {
        outitem := outitem.(target := Some(row.ip), tsReq := Some(row.ts), integrity := outitem.integrity | 4);
      } else if row.flags == "SA" {
        outitem := outitem.(integrity := outitem.integrity | 2);
      } else if row.flags == "PA" || row.flags == "FPA" {
        outitem := FillAnswer(outitem, row);
      }
    }

    static method FillAnswer(item: OutItem, row: Row) returns (outitem: OutItem)
      ensures outitem == WithAnswer(item, row)
    {
      hide Split, Classify;
      outitem := item.(response := Some(row.ip), tsResp := Some(row.ts));
      var arecs := Split(row.recs, ',');
      // the record stays in the dictionary even when the test fails
      if |arecs| == 2 && REFERENCE_IP in arecs {
        var pos := if arecs[0] == REFERENCE_IP then 0 else 1;
        outitem := outitem.(arecord := Some(arecs[1 - pos]), integrity := outitem.integrity | 1);
        outitem := Classify(outitem);
      }
    }

    method ReadAll(rows: seq<Row>)
      requires Listed(View())
      modifies this
      ensures Listed(View())
      ensures View() == Lines(old(View()), rows)
    {
      assert rows[..0] == [];
      for i := 0 to |rows|
        invariant Listed(View()) && View() == Lines(old(View()), rows[..i])
      {
        assert rows[..i + 1][..i] == rows[..i];
        ReadLine(rows[i]);
      }
      assert rows[..|rows|] == rows;
    }

    method WriteOut() returns (out: seq<OutRow>)
      requires Listed(View())
      ensures out == Emit(View(), |order|)
    {
      out := [];
      for i := 0 to |order|
        invariant out == Emit(View(), i)
      {
        if items[order[i]].integrity == 7 {
          out := out + [ToOutRow(order[i], items[order[i]])];
        }
      }
    }
  }

  // ---------- the pipeline ----------

  // The answer holds exactly two addresses, one of them the control address.
  predicate Qualifies(chain: seq<T.Node>)
    requires |chain| == 3
  {
    |chain[2].recs| == 2 && CONTROL in chain[2].recs
  }

  function OtherRecord(chain: seq<T.Node>): nat
    requires |chain| == 3 && |chain[2].recs| == 2
  {
    if chain[2].recs[0] == CONTROL then chain[2].recs[1] else chain[2].recs[0]
  }

  // Target of the SYN, source of the answer, the other record.
  function ClassOf(chain: seq<T.Node>): string
    requires |chain| == 3 && |chain[2].recs| == 2
  {
    if chain[2].ip != chain[0].ip then "Transparent Forwarder"
    else if OtherRecord(chain) == chain[2].ip then "Resolver"
    else "Forwarder"
  }

  function ItemOf(chain: seq<T.Node>): OutItem
    requires |chain| == 3
  {
    var q := Qualifies(chain);
    OutItem(Some(IpText(chain[0].ip)), Some(IpText(chain[2].ip)),
            if q then Some(IpText(OtherRecord(chain))) else None,
            Some(chain[0].ts), Some(chain[2].ts),
            if q then 7 else 6,
            if q then ClassOf(chain) else "")
  }

  lemma AnswerColumn(recs: seq<nat>)
    ensures recs != [] ==> Split(Join(IpTexts(recs), ','), ',') == IpTexts(recs)
    ensures recs == [] ==> Split(Join(IpTexts(recs), ','), ',') == [""]
    ensures REFERENCE_IP in IpTexts(recs) <==> CONTROL in recs
  {
    hide IpText;
    var texts := IpTexts(recs);
    forall i | 0 <= i < |texts| ensures Free(texts[i], ',') {
      IpTextFree(recs[i], ',');
    }
    if recs != [] {
      SplitJoin(texts, ',');
    }
    ReferenceText();
    if REFERENCE_IP in texts {
      var i :| 0 <= i < |texts| && texts[i] == REFERENCE_IP;
      IpTextInjective(recs[i], CONTROL);
    }
    if CONTROL in recs {
      var i :| 0 <= i < |recs| && recs[i] == CONTROL;
      assert texts[i] == REFERENCE_IP;
    }
  }

  // What the script reads out of the answer column of a complete chain.
  lemma AnswerParsed(L: nat, chain: seq<T.Node>)
    requires T.FullChain(L, chain)
    ensures var arecs := Split(RowOf(chain[2]).recs, ',');
      && (Qualifies(chain) <==> |arecs| == 2 && REFERENCE_IP in arecs)
      && (Qualifies(chain) ==> arecs[if arecs[0] == REFERENCE_IP then 1 else 0] == IpText(OtherRecord(chain)))
  {
    hide IpText, Split, Join, T.GoodChain;
    var recs := chain[2].recs;
    AnswerColumn(recs);
    ReferenceText();
    if Qualifies(chain) && IpTexts(recs)[0] == REFERENCE_IP {
      IpTextInjective(recs[0], CONTROL);
    }
  }

  lemma ClassAgrees(item: OutItem, chain: seq<T.Node>)
    requires |chain| == 3 && |chain[2].recs| == 2
    requires item.target == Some(IpText(chain[0].ip)) && item.response == Some(IpText(chain[2].ip))
    requires item.arecord == Some(IpText(OtherRecord(chain)))
    ensures Classify(item) == item.(odnsType := ClassOf(chain))
  {
    hide IpText, OtherRecord;
    if IpText(chain[2].ip) == IpText(chain[0].ip) {
      IpTextInjective(chain[2].ip, chain[0].ip);
    }
    if IpText(OtherRecord(chain)) == IpText(chain[2].ip) {
      IpTextInjective(OtherRecord(chain), chain[2].ip);
    }
  }

  lemma AnswerFlags(L: nat, chain: seq<T.Node>)
    requires T.FullChain(L, chain)
    ensures RowOf(chain[0]).flags == "S" && RowOf(chain[1]).flags == "SA"
    ensures RowOf(chain[2]).flags == "PA" || RowOf(chain[2]).flags == "FPA"
  {
    assert FlagText(T.PSH_ACK) == "PA" && FlagText(T.FIN_PSH_ACK) == "FPA";
  }

  // Where the answer row leads, from any record that already has the SYN's target.
  lemma AnswerUpdate(item: OutItem, L: nat, chain: seq<T.Node>)
    requires T.FullChain(L, chain) && item.target == Some(IpText(chain[0].ip))
    ensures Update(item, RowOf(chain[2])) ==
      (if Qualifies(chain) then
         item.(response := Some(IpText(chain[2].ip)), tsResp := Some(chain[2].ts),
               arecord := Some(IpText(OtherRecord(chain))), integrity := item.integrity | 1,
               odnsType := ClassOf(chain))
       else item.(response := Some(IpText(chain[2].ip)), tsResp := Some(chain[2].ts)))
  {
    AnswerFlags(L, chain);
    AnswerParsed(L, chain);
    hide IpText, Split, Join, OtherRecord, Classify, ClassOf, FlagText, T.GoodChain;
    if Qualifies(chain) {
      var seen := item.(response := Some(IpText(chain[2].ip)), tsResp := Some(chain[2].ts),
                        arecord := Some(IpText(OtherRecord(chain))), integrity := item.integrity | 1);
      ClassAgrees(seen, chain);
    }
  }

  // The three rows of a chain turn a blank record, or the record the same chain left before, into
  // the chain's record.
  lemma ChainUpdate(item: OutItem, L: nat, chain: seq<T.Node>)
    requires T.FullChain(L, chain) && (item == BLANK || item == ItemOf(chain))
    ensures Update(Update(Update(item, RowOf(chain[0])), RowOf(chain[1])), RowOf(chain[2])) == ItemOf(chain)
  {
    AnswerFlags(L, chain);
    hide IpText, Split, Join, ClassOf, OtherRecord, FlagText;
    var i1 := Update(item, RowOf(chain[0]));
    var i2 := Update(i1, RowOf(chain[1]));
    assert i2.target == Some(IpText(chain[0].ip));
    AnswerUpdate(i2, L, chain);
  }

  lemma {:induction false} LinesAppend(t: Table, a: seq<Row>, b: seq<Row>)
    ensures Lines(t, a + b) == Lines(Lines(t, a), b)
    decreases |b|
  {
    if b == [] {
      assert a + b == a;
      LinesNone(Lines(t, a));
    } else {
      var n := |b| - 1;
      assert a + b == (a + b[..n]) + [b[n]] && b == b[..n] + [b[n]];
      hide Lines, Line;
      LinesAppend(t, a, b[..n]);
      LinesSnoc(t, a + b[..n], b[n]);
      LinesSnoc(Lines(t, a), b[..n], b[n]);
    }
  }

  lemma ChainLines(t: Table, L: nat, chain: seq<T.Node>)
    requires T.FullChain(L, chain)
    requires Itoa(chain[0].id) in t.items ==> t.items[Itoa(chain[0].id)] == ItemOf(chain)
    ensures var id := Itoa(chain[0].id);
      Lines(t, RowsOf(chain)) == Table(t.items[id := ItemOf(chain)], if id in t.items then t.order else t.order + [id])
  {
    assert chain[0].id >= 0 && chain[1].id == chain[0].id && chain[2].id == chain[0].id;
    hide Update, ItemOf, RowOf, Itoa, Lines, T.FullChain;
    var id := Itoa(chain[0].id);
    RowsOfThree(L, chain);
    RowId(chain[0]);
    RowId(chain[1]);
    RowId(chain[2]);
    ChainUpdate(if id in t.items then t.items[id] else BLANK, L, chain);
    ThreeLines(t, id, RowOf(chain[0]), RowOf(chain[1]), RowOf(chain[2]));
  }

  lemma ThreeLines(t: Table, id: string, r0: Row, r1: Row, r2: Row)
    requires r0.id == r1.id == r2.id == id
    ensures var item := if id in t.items then t.items[id] else BLANK;
      Lines(t, [r0, r1, r2])
      == Table(t.items[id := Update(Update(Update(item, r0), r1), r2)],
               if id in t.items then t.order else t.order + [id])
  {
    hide Update, Lines;
    var u0 := Line(t, r0);
    var u1 := Line(u0, r1);
    LinesNone(t);
    LinesSnoc(t, [], r0);
    LinesSnoc(t, [r0], r1);
    LinesSnoc(t, [r0, r1], r2);
    assert [] + [r0] == [r0] && [r0] + [r1] == [r0, r1] && [r0, r1] + [r2] == [r0, r1, r2];
    assert u1.items == t.items[id := u1.items[id]];
  }

  lemma LinesNone(t: Table)
    ensures Lines(t, []) == t
  {
  }

  lemma LinesSnoc(t: Table, rows: seq<Row>, r: Row)
    ensures Lines(t, rows + [r]) == Line(Lines(t, rows), r)
  {
    assert (rows + [r])[..|rows|] == rows;
  }

  lemma RowId(n: T.Node)
    requires n.id >= 0
    ensures RowOf(n).id == Itoa(n.id)
  {
  }

  lemma RowsOfThree(L: nat, chain: seq<T.Node>)
    requires T.FullChain(L, chain)
    ensures RowsOf(chain) == [RowOf(chain[0]), RowOf(chain[1]), RowOf(chain[2])]
  {
    hide RowOf;
    assert RowsOf([]) == [];
    assert chain[2..][1..] == [] && RowsOf(chain[2..]) == [RowOf(chain[2])];
    assert chain[1..][1..] == chain[2..] && RowsOf(chain[1..]) == [RowOf(chain[1])] + RowsOf(chain[2..]);
  }

  // The chains without repetitions, in order of first appearance.
  ghost function Firsts(chains: seq<seq<T.Node>>): seq<seq<T.Node>>
  {
    if chains == [] then []
    else
      var before := Firsts(chains[..|chains| - 1]);
      var c := chains[|chains| - 1];
      if c in before then before else before + [c]
  }

  ghost predicate OneChainPerId(chains: seq<seq<T.Node>>)
  {
    && (forall i :: 0 <= i < |chains| ==> chains[i] != [] && chains[i][0].id >= 0)
    && forall i, j :: 0 <= i < |chains| && 0 <= j < |chains| && chains[i][0].id == chains[j][0].id
         ==> chains[i] == chains[j]
  }

  lemma {:induction false} FirstsMembers(chains: seq<seq<T.Node>>, c: seq<T.Node>)
    ensures c in Firsts(chains) <==> c in chains
  {
    if chains != [] {
      FirstsMembers(chains[..|chains| - 1], c);
      assert chains == chains[..|chains| - 1] + [chains[|chains| - 1]];
    }
  }

  // What the table holds for a list of distinct chains.
  ghost predicate Reflects(t: Table, firsts: seq<seq<T.Node>>)
  {
    && (forall i :: 0 <= i < |firsts| ==> |firsts[i]| == 3 && firsts[i][0].id >= 0)
    && |t.order| == |firsts|
    && (forall i :: 0 <= i < |firsts| ==> t.order[i] == Itoa(firsts[i][0].id))
    && (forall id :: id in t.items <==> id in t.order)
    && (forall i :: 0 <= i < |firsts| ==> t.order[i] in t.items && t.items[t.order[i]] == ItemOf(firsts[i]))
  }

  lemma {:induction false} TableReflects(L: nat, chains: seq<seq<T.Node>>)
    requires AllFull(L, chains) && OneChainPerId(chains)
    ensures Reflects(Lines(EMPTY, AllRows(L, chains)), Firsts(chains))
  {
    if chains != [] {
      var n := |chains| - 1;
      var before, c := chains[..n], chains[n];
      TableReflects(L, before);
      LinesAppend(EMPTY, AllRows(L, before), RowsOf(c));
      var t := Lines(EMPTY, AllRows(L, before));
      forall k | 0 <= k < |Firsts(before)|
        ensures Itoa(Firsts(before)[k][0].id) == Itoa(c[0].id) ==> Firsts(before)[k] == c
      {
        var f := Firsts(before)[k];
        FirstsMembers(before, f);
        if Itoa(f[0].id) == Itoa(c[0].id) {
          ItoaInjective(f[0].id, c[0].id);
          assert f in chains && c in chains;
        }
      }
      ReflectsNext(t, L, Firsts(before), c);
    }
  }

  lemma ThreeNodes(L: nat, c: seq<T.Node>)
    requires T.FullChain(L, c)
    ensures |c| == 3 && c[0].id >= 0 && c[1].id >= 0 && c[2].id >= 0
  {
  }

  lemma ReflectsNext(t: Table, L: nat, firsts: seq<seq<T.Node>>, c: seq<T.Node>)
    requires Reflects(t, firsts) && T.FullChain(L, c)
    requires forall k :: 0 <= k < |firsts| && Itoa(firsts[k][0].id) == Itoa(c[0].id) ==> firsts[k] == c
    ensures Reflects(Lines(t, RowsOf(c)), if c in firsts then firsts else firsts + [c])
  {
    hide *;
    ThreeNodes(L, c);
    KnownIff(t, firsts, c);
    ChainLines(t, L, c);
    var id := Itoa(c[0].id);
    if id in t.items {
      assert t.items[id := ItemOf(c)] == t.items;
      assert Lines(t, RowsOf(c)) == t;
    } else {
      ReflectsNew(t, firsts, c);
    }
  }

  lemma ReflectsNew(t: Table, firsts: seq<seq<T.Node>>, c: seq<T.Node>)
    requires Reflects(t, firsts) && |c| == 3 && c[0].id >= 0 && Itoa(c[0].id) !in t.items
    ensures Reflects(Table(t.items[Itoa(c[0].id) := ItemOf(c)], t.order + [Itoa(c[0].id)]), firsts + [c])
  {
    hide ItemOf, Itoa;
  }

  lemma KnownIff(t: Table, firsts: seq<seq<T.Node>>, c: seq<T.Node>)
    requires Reflects(t, firsts) && |c| == 3 && c[0].id >= 0
    requires forall k :: 0 <= k < |firsts| && Itoa(firsts[k][0].id) == Itoa(c[0].id) ==> firsts[k] == c
    ensures Itoa(c[0].id) in t.items <==> c in firsts
    ensures Itoa(c[0].id) in t.items ==> t.items[Itoa(c[0].id)] == ItemOf(c)
  {
    hide ItemOf, Itoa;
    var id := Itoa(c[0].id);
    if id in t.items {
      var k :| 0 <= k < |t.order| && t.order[k] == id;
      assert firsts[k] == c;
    }
    if c in firsts {
      var k :| 0 <= k < |firsts| && firsts[k] == c;
      assert t.order[k] == id;
    }
  }

  function ResultRow(c: seq<T.Node>): OutRow
    requires |c| == 3 && c[0].id >= 0 && Qualifies(c)
  {
    OutRow(Itoa(c[0].id), Some(IpText(c[0].ip)), Some(IpText(c[2].ip)), Some(IpText(OtherRecord(c))),
           ClassOf(c), Some(c[0].ts), Some(c[2].ts))
  }

  ghost predicate Triples(firsts: seq<seq<T.Node>>)
  {
    forall i :: 0 <= i < |firsts| ==> |firsts[i]| == 3 && firsts[i][0].id >= 0
  }

  // One result row per qualifying chain, in order of first appearance, for the first n chains.
  ghost function Results(firsts: seq<seq<T.Node>>, n: nat): seq<OutRow>
    requires n <= |firsts| && Triples(firsts)
  {
    if n == 0 then []
    else Results(firsts, n - 1) + if Qualifies(firsts[n - 1]) then [ResultRow(firsts[n - 1])] else []
  }

  lemma ReflectsAt(t: Table, firsts: seq<seq<T.Node>>, i: nat)
    requires Reflects(t, firsts) && i < |firsts|
    ensures |firsts[i]| == 3 && firsts[i][0].id >= 0 && |t.order| == |firsts|
    ensures t.order[i] == Itoa(firsts[i][0].id)
    ensures t.order[i] in t.items && t.items[t.order[i]] == ItemOf(firsts[i])
  {
    hide ItemOf, Itoa;
  }

  lemma ReflectsListed(t: Table, firsts: seq<seq<T.Node>>)
    requires Reflects(t, firsts)
    ensures Listed(t) && Triples(firsts) && |t.order| == |firsts|
  {
    hide ItemOf, Itoa;
  }

  lemma {:induction false} EmitReflected(t: Table, firsts: seq<seq<T.Node>>, n: nat)
    requires Reflects(t, firsts) && n <= |firsts|
    ensures Listed(t) && Triples(firsts) && n <= |t.order| && Emit(t, n) == Results(firsts, n)
    decreases n
  {
    hide Reflects, Listed, Triples, ItemOf, Itoa, Qualifies, ResultRow, ToOutRow;
    ReflectsListed(t, firsts);
    if n > 0 {
      EmitReflected(t, firsts, n - 1);
      ReflectsAt(t, firsts, n - 1);
      ItemRow(firsts[n - 1]);
    }
  }

  lemma ItemRow(c: seq<T.Node>)
    requires |c| == 3 && c[0].id >= 0
    ensures ItemOf(c).integrity == 7 <==> Qualifies(c)
    ensures Qualifies(c) ==> ToOutRow(Itoa(c[0].id), ItemOf(c)) == ResultRow(c)
  {
  }

  // Post-processing any list of written chains, repetitions included, yields exactly one row per
  // chain whose answer qualifies, with the class of (SYN target, answer source, other record).
  lemma PostprocessWritten(L: nat, chains: seq<seq<T.Node>>)
    requires AllFull(L, chains) && OneChainPerId(chains)
    ensures var t := Lines(EMPTY, AllRows(L, chains));
      && Reflects(t, Firsts(chains))
      && Listed(t) && Triples(Firsts(chains))
      && Emit(t, |t.order|) == Results(Firsts(chains), |Firsts(chains)|)
  {
    TableReflects(L, chains);
    var t := Lines(EMPTY, AllRows(L, chains));
    EmitReflected(t, Firsts(chains), |Firsts(chains)|);
  }

  lemma {:induction false} FirstsInsert(a: seq<seq<T.Node>>, c: seq<T.Node>, b: seq<seq<T.Node>>)
    requires c in a
    ensures Firsts(a + [c] + b) == Firsts(a + b)
  {
    if b == [] {
      FirstsMembers(a, c);
      assert a + [c] + b == a + [c] && (a + [c])[..|a|] == a && a + b == a;
    } else {
      var n := |b| - 1;
      FirstsInsert(a, c, b[..n]);
      assert (a + [c] + b)[..|a + [c] + b| - 1] == a + [c] + b[..n];
      assert (a + b)[..|a + b| - 1] == a + b[..n];
    }
  }

  lemma ReflectsOnce(t: Table, u: Table, firsts: seq<seq<T.Node>>)
    requires Reflects(t, firsts) && Reflects(u, firsts)
    ensures t == u
  {
    hide ItemOf, Itoa;
    assert t.order == u.order;
    assert t.items.Keys == u.items.Keys;
    forall id | id in t.items ensures t.items[id] == u.items[id] {
      var i :| 0 <= i < |t.order| && t.order[i] == id;
    }
  }

  // Writing a chain again, at any later point, changes neither the table nor the result rows.
  lemma RepeatedWrite(L: nat, a: seq<seq<T.Node>>, c: seq<T.Node>, b: seq<seq<T.Node>>)
    requires AllFull(L, a + b) && OneChainPerId(a + b) && c in a
    ensures AllFull(L, a + [c] + b)
    ensures Lines(EMPTY, AllRows(L, a + [c] + b)) == Lines(EMPTY, AllRows(L, a + b))
    ensures var t, u := Lines(EMPTY, AllRows(L, a + [c] + b)), Lines(EMPTY, AllRows(L, a + b));
      Listed(t) && Listed(u) && Emit(t, |t.order|) == Emit(u, |u.order|)
  {
    InsertedFull(L, a, c, b);
    FirstsInsert(a, c, b);
    hide *;
    PostprocessWritten(L, a + b);
    PostprocessWritten(L, a + [c] + b);
    ReflectsOnce(Lines(EMPTY, AllRows(L, a + [c] + b)), Lines(EMPTY, AllRows(L, a + b)), Firsts(a + b));
  }

  lemma InsertedFull(L: nat, a: seq<seq<T.Node>>, c: seq<T.Node>, b: seq<seq<T.Node>>)
    requires AllFull(L, a + b) && OneChainPerId(a + b) && c in a
    ensures AllFull(L, a + [c] + b) && OneChainPerId(a + [c] + b)
  {
    hide T.FullChain;
    var was, now := a + b, a + [c] + b;
    forall i | 0 <= i < |now| ensures now[i] in was {
      if i < |a| {
        assert now[i] == was[i];
      } else if i > |a| {
        assert now[i] == was[i - 1];
      } else {
        var j :| 0 <= j < |a| && a[j] == c;
        assert now[i] == was[j];
      }
    }
  }

  // The whole pipeline: every scanner run without id reuse, whatever the packets, ends in the
  // result rows of its written chains.
  lemma ScanToResults(L: nat, run: seq<T.System>, actions: seq<T.Action>, i: nat)
    requires T.IsRun(L, run, actions) && i < |run| && T.DistinctIds(actions)
    ensures AllFull(L, run[i].written) && OneChainPerId(run[i].written)
    ensures var t := Lines(EMPTY, AllRows(L, run[i].written));
      && Reflects(t, Firsts(run[i].written))
      && Listed(t) && Triples(Firsts(run[i].written))
      && Emit(t, |t.order|) == Results(Firsts(run[i].written), |Firsts(run[i].written)|)
  {
    var w := run[i].written;
    forall x, y | 0 <= x < |w| && 0 <= y < |w|
      ensures T.FullChain(L, w[x]) && T.FullChain(L, w[y]) && (w[x][0].id == w[y][0].id ==> w[x] == w[y])
    {
      T.WrittenByIdUnique(L, run, actions, i, x, y);
    }
    PostprocessWritten(L, w);
  }
}
