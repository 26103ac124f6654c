// The post-processing script on arbitrary input rows, not only on those of complete chains: what makes
// it write an id, where the fields come from, and how this differs from removing an id whose answer
// does not qualify.
module TcpRemoval {
  import opened Text
  import opened Wrappers
  import opened TcpPostproc

  predicate IsAnswer(row: Row)
  {
    row.flags == "PA" || row.flags == "FPA"
  }

  // The answer holds two addresses, one of them the control address.
  predicate Good(row: Row)
  {
    IsAnswer(row) && |Split(row.recs, ',')| == 2 && REFERENCE_IP in Split(row.recs, ',')
  }

  predicate Bad(row: Row)
  {
    IsAnswer(row) && !Good(row)
  }

  ghost predicate HasFlags(rows: seq<Row>, flags: string)
  {
    exists i :: 0 <= i < |rows| && rows[i].flags == flags
  }

  ghost predicate HasGood(rows: seq<Row>)
  {
    exists i :: 0 <= i < |rows| && Good(rows[i])
  }

  ghost predicate HasBad(rows: seq<Row>)
  {
    exists i :: 0 <= i < |rows| && Bad(rows[i])
  }

  // A SYN, a SYN-ACK and a qualifying answer.
  ghost predicate Complete(rows: seq<Row>)
  {
    HasFlags(rows, "S") && HasFlags(rows, "SA") && HasGood(rows)
  }

  // The rows of one id.
  function OfId(rows: seq<Row>, id: string): seq<Row>
  {
    if rows == [] then []
    else
      var before := OfId(rows[..|rows| - 1], id);
      if rows[|rows| - 1].id == id then before + [rows[|rows| - 1]] else before
  }

  function Updates(rows: seq<Row>): OutItem
  {
    if rows == [] then BLANK else Update(Updates(rows[..|rows| - 1]), rows[|rows| - 1])
  }

  // ---------- the record of an id ----------

  function Bits(syn: bool, synAck: bool, answer: bool): bv8
  {
    (if syn then 4 else 0) | (if synAck then 2 else 0) | (if answer then 1 else 0)
  }

  lemma BitsFull(syn: bool, synAck: bool, answer: bool)
    ensures Bits(syn, synAck, answer) == 7 <==> syn && synAck && answer
    ensures Bits(syn, synAck, answer) | 4 == Bits(true, synAck, answer)
    ensures Bits(syn, synAck, answer) | 2 == Bits(syn, true, answer)
    ensures Bits(syn, synAck, answer) | 1 == Bits(syn, synAck, true)
  {
  }

  lemma ClassifyKeeps(item: OutItem)
    ensures Classify(item) == item.(odnsType := Classify(item).odnsType)
  {
  }

  lemma AnswerIntegrity(item: OutItem, row: Row)
    requires IsAnswer(row)
    ensures Update(item, row).integrity == if Good(row) then item.integrity | 1 else item.integrity
  {
    AnswerBranch(item, row);
    hide Split, Classify, Update;
    forall i { ClassifyKeeps(i); }
  }

  lemma AnswerBranch(item: OutItem, row: Row)
    requires IsAnswer(row)
    ensures Update(item, row) == WithAnswer(item, row)
  {
    hide WithAnswer;
  }

  lemma OtherIntegrity(item: OutItem, row: Row)
    requires !IsAnswer(row)
    ensures !Good(row)
    ensures Update(item, row).integrity ==
      if row.flags == "S" then item.integrity | 4 else if row.flags == "SA" then item.integrity | 2 else item.integrity
  {
    hide Split, Classify;
  }

  lemma IntegrityNext(item: OutItem, row: Row)
    ensures Update(item, row).integrity ==
      if row.flags == "S" then item.integrity | 4
      else if row.flags == "SA" then item.integrity | 2
      else if Good(row) then item.integrity | 1
      else item.integrity
  {
    hide Update, Good;
    if IsAnswer(row) {
      AnswerIntegrity(item, row);
    } else {
      OtherIntegrity(item, row);
    }
  }

  lemma HasNext(rows: seq<Row>, row: Row)
    ensures forall flags :: HasFlags(rows + [row], flags) <==> HasFlags(rows, flags) || row.flags == flags
    ensures HasGood(rows + [row]) <==> HasGood(rows) || Good(row)
    ensures HasBad(rows + [row]) <==> HasBad(rows) || Bad(row)
  {
    hide Good, Bad;
    var all := rows + [row];
    assert all[|rows|] == row;
    assert forall i :: 0 <= i < |rows| ==> all[i] == rows[i];
  }

  // The integrity bits say which kinds of rows have been seen.
  lemma {:induction false} IntegrityBits(rows: seq<Row>)
    ensures Updates(rows).integrity == Bits(HasFlags(rows, "S"), HasFlags(rows, "SA"), HasGood(rows))
    ensures Updates(rows).integrity == 7 <==> Complete(rows)
  {
    hide Good, Update, HasFlags, HasGood;
    if rows == [] {
      NothingSeen();
      BitsFull(false, false, false);
    } else {
      var n := |rows| - 1;
      IntegrityBits(rows[..n]);
      assert rows == rows[..n] + [rows[n]];
      HasNext(rows[..n], rows[n]);
      IntegrityNext(Updates(rows[..n]), rows[n]);
      BitsFull(HasFlags(rows[..n], "S"), HasFlags(rows[..n], "SA"), HasGood(rows[..n]));
      BitsFull(HasFlags(rows, "S"), HasFlags(rows, "SA"), HasGood(rows));
      GoodIsAnswer(rows[n]);
    }
  }

  lemma GoodIsAnswer(row: Row)
    ensures Good(row) ==> row.flags != "S" && row.flags != "SA"
  {
  }

  lemma NothingSeen()
    ensures !HasFlags([], "S") && !HasFlags([], "SA") && !HasGood([]) && !HasBad([])
  {
  }

  ghost predicate Written(t: Table, id: string)
  {
    id in t.items && t.items[id].integrity == 7
  }

  // Every id of the table has one place in the order.
  ghost predicate TableOk(t: Table)
  {
    forall id :: id in t.items <==> id in t.order
  }

  lemma TableListed(t: Table)
    requires TableOk(t)
    ensures Listed(t)
  {
    forall i | 0 <= i < |t.order| ensures t.order[i] in t.items {
      assert t.order[i] in t.order;
    }
  }

  ghost predicate WrittenBelow(t: Table, n: nat, id: string)
    requires n <= |t.order|
  {
    exists i :: 0 <= i < n && t.order[i] == id && Written(t, id)
  }

  lemma {:induction false} EmitHas(t: Table, n: nat, id: string)
    requires Listed(t) && n <= |t.order|
    ensures (exists r :: r in Emit(t, n) && r.id == id) <==> WrittenBelow(t, n, id)
    ensures forall r :: r in Emit(t, n) && r.id == id ==> Written(t, id) && r == ToOutRow(id, t.items[id])
  {
    if n > 0 {
      EmitHas(t, n - 1, id);
      var last := t.order[n - 1];
      var more := if t.items[last].integrity == 7 then [ToOutRow(last, t.items[last])] else [];
      assert Emit(t, n) == Emit(t, n - 1) + more;
      assert WrittenBelow(t, n, id) <==> WrittenBelow(t, n - 1, id) || (last == id && Written(t, id));
      if last == id && Written(t, id) {
        assert ToOutRow(last, t.items[last]) in Emit(t, n);
      }
      if r :| r in Emit(t, n - 1) && r.id == id {
        assert r in Emit(t, n);
      }
    }
  }

  // An id has a row in the output exactly if its record is written.
  lemma WrittenEmitted(t: Table, id: string)
    requires TableOk(t)
    ensures Listed(t)
    ensures (exists r :: r in Emit(t, |t.order|) && r.id == id) <==> Written(t, id)
    ensures forall r :: r in Emit(t, |t.order|) && r.id == id ==> Written(t, id) && r == ToOutRow(id, t.items[id])
  {
    TableListed(t);
    EmitHas(t, |t.order|, id);
    if Written(t, id) {
      assert id in t.order;
      var i :| 0 <= i < |t.order| && t.order[i] == id;
      assert WrittenBelow(t, |t.order|, id);
    }
  }

  lemma LineItem(t: Table, row: Row, id: string)
    requires TableOk(t)
    ensures TableOk(Line(t, row))
    ensures if row.id == id then
              id in Line(t, row).items
              && Line(t, row).items[id] == Update(if id in t.items then t.items[id] else BLANK, row)
            else (id in Line(t, row).items <==> id in t.items)
                 && (id in t.items ==> Line(t, row).items[id] == t.items[id])
  {
    hide Update;
  }

  // The record of an id is the fold of the rows of that id.
  lemma {:induction false} LinesItem(rows: seq<Row>, id: string)
    ensures var t := Lines(EMPTY, rows);
      && TableOk(t)
      && (id in t.items <==> OfId(rows, id) != [])
      && (id in t.items ==> t.items[id] == Updates(OfId(rows, id)))
  {
    if rows != [] {
      hide Line, Update, TableOk;
      var n := |rows| - 1;
      LinesItem(rows[..n], id);
      LineItem(Lines(EMPTY, rows[..n]), rows[n], id);
      var before := OfId(rows[..n], id);
      assert (before + [rows[n]])[..|before|] == before;
    }
  }

  // For any input whatsoever, an id is written exactly when its rows hold a SYN, a SYN-ACK and a
  // qualifying answer, in any order and among any others; its row is the fold of its rows.
  lemma WrittenIff(rows: seq<Row>, id: string)
    ensures var t := Lines(EMPTY, rows);
      && Listed(t)
      && ((exists r :: r in Emit(t, |t.order|) && r.id == id) <==> Complete(OfId(rows, id)))
      && forall r :: r in Emit(t, |t.order|) && r.id == id ==> r == ToOutRow(id, Updates(OfId(rows, id)))
  {
    LinesItem(rows, id);
    IntegrityBits(OfId(rows, id));
    NothingSeen();
    hide Lines, Updates, OfId, Emit, TableOk, Update, Line, Listed;
    WrittenEmitted(Lines(EMPTY, rows), id);
  }

  // ---------- one record, two answers ----------

  function LastAnswer(rows: seq<Row>): Option<Row>
  {
    if rows == [] then None
    else if IsAnswer(rows[|rows| - 1]) then Some(rows[|rows| - 1])
    else LastAnswer(rows[..|rows| - 1])
  }

  function LastGood(rows: seq<Row>): Option<Row>
  {
    if rows == [] then None
    else if Good(rows[|rows| - 1]) then Some(rows[|rows| - 1])
    else LastGood(rows[..|rows| - 1])
  }

  // The address next to the control address.
  function Other(row: Row): string
    requires Good(row)
  {
    var arecs := Split(row.recs, ',');
    arecs[if arecs[0] == REFERENCE_IP then 1 else 0]
  }

  lemma FieldsNext(item: OutItem, row: Row)
    ensures Update(item, row).response == (if IsAnswer(row) then Some(row.ip) else item.response)
    ensures Update(item, row).tsResp == (if IsAnswer(row) then Some(row.ts) else item.tsResp)
    ensures Update(item, row).arecord == (if Good(row) then Some(Other(row)) else item.arecord)
  {
    hide Split;
  }

  // Responder and response time are those of the last answer, the record that of the last qualifying one.
  lemma {:induction false} FieldsFrom(rows: seq<Row>)
    ensures LastGood(rows).Some? ==> Good(LastGood(rows).value)
    ensures var item := Updates(rows);
      && item.response == (if LastAnswer(rows).Some? then Some(LastAnswer(rows).value.ip) else None)
      && item.tsResp == (if LastAnswer(rows).Some? then Some(LastAnswer(rows).value.ts) else None)
      && item.arecord == (if LastGood(rows).Some? then Some(Other(LastGood(rows).value)) else None)
  {
    if rows != [] {
      hide Update, Split, IsAnswer;
      FieldsFrom(rows[..|rows| - 1]);
      FieldsNext(Updates(rows[..|rows| - 1]), rows[|rows| - 1]);
    }
  }

  // Once there is a qualifying answer, the record is built from that one alone.
  ghost predicate OneAnswer(rows: seq<Row>)
  {
    LastGood(rows).Some? ==> LastAnswer(rows) == LastGood(rows)
  }

  ghost predicate Overridden(rows: seq<Row>)
  {
    exists i, j :: 0 <= i < j < |rows| && Good(rows[i]) && Bad(rows[j])
  }

  // However far the input has been read, a record never mixes two answers: exactly when no qualifying
  // answer of the id is followed by one that does not qualify.
  lemma MixedIff(rows: seq<Row>)
    ensures (forall k :: 0 <= k <= |rows| ==> OneAnswer(rows[..k])) <==> !Overridden(rows)
  {
    hide OneAnswer, Good, Bad;
    if Overridden(rows) {
      var i, j :| 0 <= i < j < |rows| && Good(rows[i]) && Bad(rows[j]);
      BadMixes(rows, i, j);
    } else {
      forall k | 0 <= k <= |rows| ensures OneAnswer(rows[..k]) {
        NeverMixed(rows, k);
      }
    }
  }

  lemma {:induction false} GoodSeen(rows: seq<Row>, i: nat)
    requires i < |rows| && Good(rows[i])
    ensures LastGood(rows).Some? && Good(LastGood(rows).value)
    decreases |rows|
  {
    hide Good;
    if !Good(rows[|rows| - 1]) {
      GoodSeen(rows[..|rows| - 1], i);
    }
  }

  lemma BadMixes(rows: seq<Row>, i: nat, j: nat)
    requires i < j < |rows| && Good(rows[i]) && Bad(rows[j])
    ensures !OneAnswer(rows[..j + 1])
  {
    var prefix := rows[..j + 1];
    GoodSeen(prefix, i);
    hide Split;
    assert LastAnswer(prefix) == Some(rows[j]);
  }

  lemma {:induction false} NeverMixed(rows: seq<Row>, k: nat)
    requires k <= |rows| && !Overridden(rows)
    ensures OneAnswer(rows[..k])
    ensures LastGood(rows[..k]).Some? ==> exists i :: 0 <= i < k && Good(rows[i])
    decreases k
  {
    if k > 0 {
      NeverMixed(rows, k - 1);
      assert rows[..k][..k - 1] == rows[..k - 1];
      hide Split;
    }
  }

  // ---------- the removal the script means to do ----------

  function Without(order: seq<string>, id: string): seq<string>
  {
    if order == [] then []
    else
      var before := Without(order[..|order| - 1], id);
      if order[|order| - 1] == id then before else before + [order[|order| - 1]]
  }

  lemma {:induction false} WithoutHas(order: seq<string>, id: string)
    ensures forall x :: x in Without(order, id) <==> x in order && x != id
  {
    if order != [] {
      var n := |order| - 1;
      WithoutHas(order[..n], id);
      assert order == order[..n] + [order[n]];
    }
  }

  // A line of the script if it removed the record under its id when an answer does not qualify.
  function RemovingLine(t: Table, row: Row): Table
  {
    if Bad(row) then Table(t.items - {row.id}, Without(t.order, row.id)) else Line(t, row)
  }

  function RemovingLines(rows: seq<Row>): Table
  {
    if rows == [] then EMPTY else RemovingLine(RemovingLines(rows[..|rows| - 1]), rows[|rows| - 1])
  }

  // The position after the last answer that does not qualify.
  function Cut(rows: seq<Row>): (k: nat)
    ensures k <= |rows|
  {
    if rows == [] then 0
    else if Bad(rows[|rows| - 1]) then |rows|
    else Cut(rows[..|rows| - 1])
  }

  // What is left of an id's rows after the last answer that does not qualify.
  function SinceBad(rows: seq<Row>): seq<Row>
  {
    rows[Cut(rows)..]
  }

  lemma SinceBadNext(rows: seq<Row>, row: Row)
    ensures SinceBad(rows + [row]) == if Bad(row) then [] else SinceBad(rows) + [row]
  {
    hide Bad;
    assert (rows + [row])[..|rows|] == rows;
  }

  lemma {:induction false} CutExact(rows: seq<Row>)
    ensures Cut(rows) > 0 ==> Bad(rows[Cut(rows) - 1])
    ensures forall i :: Cut(rows) <= i < |rows| ==> !Bad(rows[i])
  {
    hide Bad;
    if rows != [] {
      CutExact(rows[..|rows| - 1]);
    }
  }

  lemma RemovedItem(t: Table, row: Row, id: string)
    requires TableOk(t) && Bad(row)
    ensures TableOk(RemovingLine(t, row))
    ensures id in RemovingLine(t, row).items <==> id in t.items && id != row.id
    ensures id in t.items && id != row.id ==> RemovingLine(t, row).items[id] == t.items[id]
  {
    hide Bad;
    WithoutHas(t.order, row.id);
  }

  lemma {:induction false} RemovingItem(rows: seq<Row>, id: string)
    ensures var t := RemovingLines(rows);
      && TableOk(t)
      && (id in t.items <==> SinceBad(OfId(rows, id)) != [])
      && (id in t.items ==> t.items[id] == Updates(SinceBad(OfId(rows, id))))
  {
    if rows == [] {
      assert OfId(rows, id) == [];
    } else {
      var n := |rows| - 1;
      var t := RemovingLines(rows[..n]);
      var before := OfId(rows[..n], id);
      RemovingItem(rows[..n], id);
      hide Line, Update, TableOk, Bad, SinceBad;
      SinceBadNext(before, rows[n]);
      if Bad(rows[n]) {
        RemovedItem(t, rows[n], id);
      } else {
        LineItem(t, rows[n], id);
        var since := SinceBad(before);
        assert (since + [rows[n]])[..|since|] == since;
      }
    }
  }

  // With the removal, an id is written exactly when the rows after its last bad answer are complete.
  lemma RemovingWrittenIff(rows: seq<Row>, id: string)
    ensures var t := RemovingLines(rows);
      && Listed(t)
      && ((exists r :: r in Emit(t, |t.order|) && r.id == id) <==> Complete(SinceBad(OfId(rows, id))))
      && forall r :: r in Emit(t, |t.order|) && r.id == id ==> r == ToOutRow(id, Updates(SinceBad(OfId(rows, id))))
  {
    RemovingItem(rows, id);
    IntegrityBits(SinceBad(OfId(rows, id)));
    NothingSeen();
    hide RemovingLines, Updates, OfId, Emit, TableOk, Update, Line, Listed, SinceBad;
    WrittenEmitted(RemovingLines(rows), id);
  }

  ghost predicate Writes(t: Table, id: string)
    requires Listed(t)
  {
    exists r :: r in Emit(t, |t.order|) && r.id == id
  }

  // The script and the removal it means to do write the same id exactly when a complete id is still
  // complete counting only the rows after its last answer that does not qualify.
  lemma RemovalAgreesIff(rows: seq<Row>, id: string)
    ensures Listed(Lines(EMPTY, rows)) && Listed(RemovingLines(rows))
    ensures (Writes(Lines(EMPTY, rows), id) <==> Writes(RemovingLines(rows), id))
      <==> (Complete(OfId(rows, id)) ==> Complete(SinceBad(OfId(rows, id))))
    ensures Writes(RemovingLines(rows), id) ==> Writes(Lines(EMPTY, rows), id)
  {
    WrittenIff(rows, id);
    RemovingWrittenIff(rows, id);
    hide Lines, RemovingLines, OfId, Emit, Listed, SinceBad, Updates, Complete;
    CompleteSuffix(OfId(rows, id));
  }

  lemma CompleteSuffix(rows: seq<Row>)
    ensures Complete(SinceBad(rows)) ==> Complete(rows)
  {
    var k := Cut(rows);
    hide Good, Cut;
    assert forall i :: 0 <= i < |rows| - k ==> SinceBad(rows)[i] == rows[k + i];
    forall flags | HasFlags(SinceBad(rows), flags) ensures HasFlags(rows, flags) {
      var i :| 0 <= i < |SinceBad(rows)| && SinceBad(rows)[i].flags == flags;
      assert rows[k + i].flags == flags;
    }
    if HasGood(SinceBad(rows)) {
      var i :| 0 <= i < |SinceBad(rows)| && Good(SinceBad(rows)[i]);
      assert Good(rows[k + i]);
    }
  }

  // The rows of one connection: SYN and SYN-ACK stand before every answer.
  ghost predicate HandshakeFirst(rows: seq<Row>)
  {
    forall i, j :: 0 <= i < j < |rows| && IsAnswer(rows[i]) ==> rows[j].flags != "S" && rows[j].flags != "SA"
  }

  // For an id whose handshake stands before its answers, the two agree exactly when a complete id has
  // no answer that fails to qualify.
  lemma ConnectionAgreesIff(rows: seq<Row>, id: string)
    requires HandshakeFirst(OfId(rows, id))
    ensures Listed(Lines(EMPTY, rows)) && Listed(RemovingLines(rows))
    ensures (Writes(Lines(EMPTY, rows), id) <==> Writes(RemovingLines(rows), id))
      <==> !(Complete(OfId(rows, id)) && HasBad(OfId(rows, id)))
  {
    RemovalAgreesIff(rows, id);
    hide Lines, RemovingLines, OfId, Emit, Listed, Updates;
    HandshakeLost(OfId(rows, id));
  }

  lemma HandshakeLost(rows: seq<Row>)
    requires HandshakeFirst(rows)
    ensures Complete(rows) ==> (Complete(SinceBad(rows)) <==> !HasBad(rows))
  {
    CutExact(rows);
    var k := Cut(rows);
    hide Good, Cut;
    if k == 0 {
      assert SinceBad(rows) == rows;
      assert !HasBad(rows);
    } else {
      assert IsAnswer(rows[k - 1]) && HasBad(rows);
      assert forall i :: 0 <= i < |rows| - k ==> SinceBad(rows)[i] == rows[k + i];
      assert !HasFlags(SinceBad(rows), "S");
    }
  }

  // ---------- inputs on which they differ ----------

  lemma {:induction false} OfSame(rows: seq<Row>, id: string)
    requires forall i :: 0 <= i < |rows| ==> rows[i].id == id
    ensures OfId(rows, id) == rows
  {
    if rows != [] {
      OfSame(rows[..|rows| - 1], id);
    }
  }

  // A handshake and then one answer of each kind.
  ghost predicate TwoAnswers(rows: seq<Row>, id: string, good: nat, bad: nat)
  {
    && |rows| == 4 && (forall i :: 0 <= i < 4 ==> rows[i].id == id)
    && rows[0].flags == "S" && rows[1].flags == "SA"
    && 2 <= good < 4 && 2 <= bad < 4 && Good(rows[good]) && Bad(rows[bad])
  }

  lemma TwoAnswersSeen(rows: seq<Row>, id: string, good: nat, bad: nat)
    requires TwoAnswers(rows, id, good, bad)
    ensures HandshakeFirst(rows) && Complete(rows) && HasBad(rows)
  {
    hide Split;
    GoodIsAnswer(rows[good]);
    assert IsAnswer(rows[2]) && IsAnswer(rows[3]) && !IsAnswer(rows[0]) && !IsAnswer(rows[1]);
  }

  // With an answer of each kind the script writes the id, and with the removal it is not written.
  lemma TwoAnswersDiffer(rows: seq<Row>, id: string, good: nat, bad: nat)
    requires TwoAnswers(rows, id, good, bad)
    ensures Listed(Lines(EMPTY, rows)) && Listed(RemovingLines(rows))
    ensures Writes(Lines(EMPTY, rows), id) && !Writes(RemovingLines(rows), id)
  {
    TwoAnswersSeen(rows, id, good, bad);
    OfSame(rows, id);
    WrittenIff(rows, id);
    WritesIs(Lines(EMPTY, rows), id);
    hide *;
    ConnectionAgreesIff(rows, id);
  }

  lemma WritesIs(t: Table, id: string)
    requires Listed(t)
    ensures Writes(t, id) <==> exists r :: r in Emit(t, |t.order|) && r.id == id
  {
  }

  // First the qualifying answer: the row that is written has the responder of one answer and the
  // record of the other.
  lemma MixedRow(rows: seq<Row>, id: string)
    requires TwoAnswers(rows, id, 2, 3)
    ensures Listed(Lines(EMPTY, rows)) && Listed(RemovingLines(rows))
    ensures Writes(Lines(EMPTY, rows), id) && !Writes(RemovingLines(rows), id)
    ensures Good(rows[2])
    ensures forall r :: r in Emit(Lines(EMPTY, rows), |Lines(EMPTY, rows).order|) && r.id == id ==>
      r.response == Some(rows[3].ip) && r.tsResp == Some(rows[3].ts) && r.arecord == Some(Other(rows[2]))
  {
    LastTwo(rows);
    OfSame(rows, id);
    hide LastAnswer, LastGood, Other, Lines, RemovingLines, Emit, Writes, Good, Updates, OfId, Listed;
    TwoAnswersDiffer(rows, id, 2, 3);
    FieldsFrom(rows);
    WrittenIff(rows, id);
  }

  lemma LastTwo(rows: seq<Row>)
    requires |rows| == 4 && Good(rows[2]) && Bad(rows[3])
    ensures LastAnswer(rows) == Some(rows[3]) && LastGood(rows) == Some(rows[2])
  {
    hide Split;
    assert rows[..3][2] == rows[2];
  }

  // The other order: no qualifying answer is followed by one that does not qualify, yet script and
  // removal differ.
  lemma LateAnswer(rows: seq<Row>, id: string)
    requires TwoAnswers(rows, id, 3, 2)
    ensures Listed(Lines(EMPTY, rows)) && Listed(RemovingLines(rows))
    ensures !Overridden(OfId(rows, id))
    ensures Writes(Lines(EMPTY, rows), id) && !Writes(RemovingLines(rows), id)
  {
    OfSame(rows, id);
    NotOverridden(rows);
    hide *;
    TwoAnswersDiffer(rows, id, 3, 2);
  }

  lemma NotOverridden(rows: seq<Row>)
    requires |rows| == 4 && rows[0].flags == "S" && rows[1].flags == "SA" && Bad(rows[2])
    ensures !Overridden(rows)
  {
    hide Split;
    assert !Good(rows[0]) && !Good(rows[1]) && !Good(rows[2]);
  }

  // Such rows exist.
  lemma TwoAnswersExample(id: string) returns (mixed: seq<Row>, late: seq<Row>)
    ensures TwoAnswers(mixed, id, 2, 3) && TwoAnswers(late, id, 3, 2)
    ensures mixed[2].ip == "1.1.1.1" && mixed[3].ip == "9.9.9.9" && Other(mixed[2]) == "1.2.3.4"
  {
    var syn := Row(id, 1, "1.1.1.1", 61440, "0", "0", "S", "");
    var synAck := Row(id, 2, "1.1.1.1", 61440, "0", "1", "SA", "");
    var good := Row(id, 3, "1.1.1.1", 61440, "0", "2", "PA", Join(["1.2.3.4", REFERENCE_IP], ','));
    var bad := Row(id, 4, "9.9.9.9", 61440, "0", "2", "PA", "5.6.7.8");
    GoodExample(good);
    BadExample(bad);
    hide *;
    FourRows(id, syn, synAck, good, bad);
    mixed := [syn, synAck, good, bad];
    late := [syn, synAck, bad, good];
  }

  lemma FourRows(id: string, syn: Row, synAck: Row, good: Row, bad: Row)
    requires syn.id == synAck.id == good.id == bad.id == id
    requires syn.flags == "S" && synAck.flags == "SA" && Good(good) && Bad(bad)
    ensures TwoAnswers([syn, synAck, good, bad], id, 2, 3) && TwoAnswers([syn, synAck, bad, good], id, 3, 2)
  {
    hide Good, Bad;
  }

  lemma BadExample(row: Row)
    requires row.flags == "PA" && row.recs == "5.6.7.8"
    ensures Bad(row)
  {
    SplitFree("5.6.7.8", ',');
    hide Split;
  }

  lemma GoodExample(row: Row)
    requires row.flags == "PA" && row.recs == Join(["1.2.3.4", REFERENCE_IP], ',')
    ensures Good(row) && Other(row) == "1.2.3.4"
  {
    hide Split, Join;
    SplitJoin(["1.2.3.4", REFERENCE_IP], ',');
    assert Split(row.recs, ',')[1] == REFERENCE_IP;
  }
}
