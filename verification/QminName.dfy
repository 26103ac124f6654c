// The query names of the QNAME-minimisation scanner: d-1 counting labels, then the id label that
// carries the probe's metadata, then the base domain.
module QminName {
  import opened Text
  import opened Wrappers

  // The last m labels of every name built around this id label, deepest first.
  function Labels(m: nat, id: string): (r: seq<string>)
    requires m >= 1
    ensures |r| == m && r[m - 1] == id
    ensures forall i :: 0 <= i < m - 1 ==> r[i] == Itoa(m - 1 - i)
  {
    hide Itoa;
    if m == 1 then [id] else [Itoa(m - 1)] + Labels(m - 1, id)
  }

  function Name(m: nat, id: string): string
    requires m >= 1
  {
    Join(Labels(m, id), '.')
  }

  // The labels in which the name of m labels exceeds the one of k labels.
  function Piece(k: nat, m: nat, id: string): string
    requires k < m
  {
    Join(Labels(m, id)[..m - k], '.')
  }

  lemma LabelsFree(m: nat, id: string, c: char)
    requires m >= 1 && Free(id, c) && !IsDigit(c)
    ensures forall i :: 0 <= i < m ==> Free(Labels(m, id)[i], c)
  {
    forall i | 0 <= i < m ensures Free(Labels(m, id)[i], c) {
      if i < m - 1 {
        DigitsFree(Itoa(m - 1 - i), c);
      }
    }
  }

  lemma NameFree(m: nat, id: string, c: char)
    requires m >= 1 && Free(id, c) && !IsDigit(c) && c != '.'
    ensures Free(Name(m, id), c)
  {
    LabelsFree(m, id, c);
    JoinFree(Labels(m, id), '.', c);
  }

  lemma PieceFree(k: nat, m: nat, id: string, c: char)
    requires k < m && Free(id, c) && !IsDigit(c) && c != '.'
    ensures Free(Piece(k, m, id), c)
  {
    LabelsFree(m, id, c);
    JoinFree(Labels(m, id)[..m - k], '.', c);
  }

  lemma NameLabels(m: nat, id: string)
    requires m >= 1 && Free(id, '.')
    ensures Split(Name(m, id), '.') == Labels(m, id)
  {
    LabelsFree(m, id, '.');
    SplitJoin(Labels(m, id), '.');
  }

  lemma PieceLabels(k: nat, m: nat, id: string)
    requires k < m && Free(id, '.')
    ensures Split(Piece(k, m, id), '.') == Labels(m, id)[..m - k]
  {
    LabelsFree(m, id, '.');
    SplitJoin(Labels(m, id)[..m - k], '.');
  }

  lemma NamePiece(k: nat, m: nat, id: string)
    requires 1 <= k < m
    ensures Name(m, id) == Piece(k, m, id) + "." + Name(k, id)
  {
    hide Join;
    var ls := Labels(m, id);
    assert ls[m - k..] == Labels(k, id);
    assert ls == ls[..m - k] + ls[m - k..];
    JoinConcat(ls[..m - k], ls[m - k..], '.');
  }

  lemma WholeName(m: nat, id: string)
    requires m >= 1
    ensures Piece(0, m, id) == Name(m, id)
  {
    assert Labels(m, id)[..m] == Labels(m, id);
  }

  lemma NameOne(id: string)
    ensures Name(1, id) == id
  {
  }

  lemma NameNext(m: nat, id: string)
    requires m >= 1
    ensures Name(m + 1, id) == Itoa(m) + "." + Name(m, id)
  {
    hide Itoa;
    JoinCons(Itoa(m), Labels(m, id), '.');
  }

  lemma NameLonger(k: nat, m: nat, id: string)
    requires 1 <= k < m
    ensures |Name(k, id)| < |Name(m, id)|
  {
    NamePiece(k, m, id);
  }

  // Every shorter name is the tail of the longer one, after a dot.
  lemma NameEndsIn(k: nat, m: nat, id: string)
    requires 1 <= k <= m
    ensures Contains(Name(m, id), Name(k, id))
  {
    if k == m {
      assert Name(m, id) == [] + Name(m, id);
      SuffixContained([], Name(k, id));
    } else {
      NamePiece(k, m, id);
      SuffixContained(Piece(k, m, id) + ".", Name(k, id));
    }
  }

  lemma NameNonempty(m: nat, id: string)
    requires m >= 1 && id != []
    ensures |Name(m, id)| >= |id|
  {
    if m > 1 {
      NameOne(id);
      NameLonger(1, m, id);
    }
  }

  lemma {:induction false} LowerName(m: nat, id: string)
    requires m >= 1
    ensures ToLower(Name(m, id)) == Name(m, ToLower(id))
  {
    hide Itoa, Join;
    LowerJoin(Labels(m, id), '.');
    forall i | 0 <= i < m ensures LowerAll(Labels(m, id))[i] == Labels(m, ToLower(id))[i] {
      if i < m - 1 {
        LowerDigits(Itoa(m - 1 - i));
      }
    }
    assert LowerAll(Labels(m, id)) == Labels(m, ToLower(id));
  }

  // ---------- the scanner's printer ----------

  function Flagged(on: bool, flag: string): seq<string>
  {
    if on then [flag] else []
  }

  function IdParts(hex: string, depth: int, nonce: nat, induction: bool, qminMode: bool, nxopti: bool): seq<string>
  {
    [hex, IntText(depth), Itoa(nonce)]
    + Flagged(induction, "induction") + Flagged(qminMode, "qminMode") + Flagged(nxopti, "nxopti")
  }

  function IdToken(hex: string, depth: int, nonce: nat, induction: bool, qminMode: bool, nxopti: bool): string
  {
    Join(IdParts(hex, depth, nonce, induction, qminMode, nxopti), '-')
  }

  // The counting labels in front of the id label, one per turn of the loop.
  method Countdown(depth: int, ghost id: string) returns (domain: string)
    ensures domain + id == Name(if depth >= 1 then depth else 1, id)
  {
    hide Join, Itoa, Name;
    NameOne(id);
    domain := "";
    var i := depth - 1;
    while i > 0
      invariant i <= depth - 1 && (depth >= 1 ==> i >= 0)
      invariant domain + Name(if i >= 0 then i + 1 else 1, id) == Name(if depth >= 1 then depth else 1, id)
    {
      NameNext(i, id);
      assert domain + (Itoa(i) + "." + Name(i, id)) == domain + Itoa(i) + "." + Name(i, id);
      domain := domain + Itoa(i) + ".";
      i := i - 1;
    }
  }

  // The printed name is the whole label sequence over the id label, under the base domain.
  method DomainAssembly(hex: string, depth: int, nonce: nat, induction: bool, qminMode: bool, nxopti: bool,
                        baseDomain: string)
    returns (name: Option<string>)
    ensures name.None? <==> induction && qminMode
    ensures name.Some? ==>
      name.value == Name(if depth >= 1 then depth else 1, IdToken(hex, depth, nonce, induction, qminMode, nxopti))
                    + "." + baseDomain
  {
    hide Join, Itoa, IntText, Name, IdToken;
    if induction && qminMode {
      return None;
    }
    var idToken := hex;
    idToken := idToken + "-" + IntText(depth) + "-";
    idToken := idToken + Itoa(nonce);
    IdTokenText(hex, depth, nonce, induction, qminMode, nxopti);
    var numbers := Countdown(depth, IdToken(hex, depth, nonce, induction, qminMode, nxopti));
    var domain := numbers + idToken;
    if induction {
      domain := domain + "-induction";
    }
    if qminMode {
      domain := domain + "-qminMode";
    }
    if nxopti {
      domain := domain + "-nxopti";
    }
    assert domain == numbers + IdToken(hex, depth, nonce, induction, qminMode, nxopti);
    return Some(domain + "." + baseDomain);
  }

  lemma IdTokenText(hex: string, depth: int, nonce: nat, induction: bool, qminMode: bool, nxopti: bool)
    ensures IdToken(hex, depth, nonce, induction, qminMode, nxopti)
      == hex + "-" + IntText(depth) + "-" + Itoa(nonce)
         + (if induction then "-induction" else "") + (if qminMode then "-qminMode" else "")
         + (if nxopti then "-nxopti" else "")
  {
    hide Join, Itoa, IntText;
    var p3 := [hex, IntText(depth), Itoa(nonce)];
    var p4 := p3 + Flagged(induction, "induction");
    var p5 := p4 + Flagged(qminMode, "qminMode");
    JoinThree(hex, IntText(depth), Itoa(nonce));
    JoinFlag(p3, induction, "induction");
    JoinFlag(p4, qminMode, "qminMode");
    JoinFlag(p5, nxopti, "nxopti");
    assert "-" + "induction" == "-induction" && "-" + "qminMode" == "-qminMode" && "-" + "nxopti" == "-nxopti";
  }

  lemma JoinThree(a: string, b: string, c: string)
    ensures Join([a, b, c], '-') == a + "-" + b + "-" + c
  {
    hide Join;
    JoinCons(a, [b, c], '-');
    JoinCons(b, [c], '-');
    assert [a] + [b, c] == [a, b, c] && [b] + [c] == [b, c];
    JoinSnoc([], c, '-');
    assert [] + [c] == [c];
  }

  lemma JoinFlag(parts: seq<string>, on: bool, flag: string)
    requires parts != []
    ensures Join(parts + Flagged(on, flag), '-') == Join(parts, '-') + (if on then "-" + flag else "")
  {
    hide Join;
    if on {
      JoinSnoc(parts, flag, '-');
      assert Join(parts, '-') + ['-'] + flag == Join(parts, '-') + ("-" + flag);
    } else {
      assert parts + [] == parts;
      assert Join(parts, '-') + "" == Join(parts, '-');
    }
  }

  function FlagLength(induction: bool, qminMode: bool, nxopti: bool): nat
  {
    (if induction then 10 else 0) + (if qminMode then 9 else 0) + (if nxopti then 7 else 0)
  }

  // What the server reads back out of an id label, whatever case a resolver sent it in.
  lemma IdTokenRead(hex: string, depth: nat, nonce: nat, induction: bool, qminMode: bool, nxopti: bool)
    requires Free(hex, '-') && Free(hex, '.') && Free(hex, '_') && depth <= MAX_INT
    ensures var id := ToLower(IdToken(hex, depth, nonce, induction, qminMode, nxopti));
      && |id| == |hex| + |Itoa(depth)| + |Itoa(nonce)| + 2 + FlagLength(induction, qminMode, nxopti)
      && Free(id, '.') && Free(id, '_')
      && Split(id, '-') == LowerAll(IdParts(hex, depth, nonce, induction, qminMode, nxopti))
      && Split(id, '-')[1] == Itoa(depth)
      && ParseIntValue(Split(id, '-')[1]) == depth
  {
    hide Join, Split, Itoa, Free, ToLower;
    var parts := IdParts(hex, depth, nonce, induction, qminMode, nxopti);
    var id := IdToken(hex, depth, nonce, induction, qminMode, nxopti);
    LowerDigits(Itoa(depth));
    AtoiItoa(depth);
    IdTokenText(hex, depth, nonce, induction, qminMode, nxopti);
    LowerJoin(parts, '-');
    PartsFree(hex, depth, nonce, induction, qminMode, nxopti);
    JoinFree(parts, '-', '.');
    JoinFree(parts, '-', '_');
    LowerFree(id, '.');
    LowerFree(id, '_');
    forall i | 0 <= i < |parts| ensures Free(LowerAll(parts)[i], '-') {
      LowerFree(parts[i], '-');
    }
    SplitJoin(LowerAll(parts), '-');
  }

  lemma PartsFree(hex: string, depth: nat, nonce: nat, induction: bool, qminMode: bool, nxopti: bool)
    requires Free(hex, '-') && Free(hex, '.') && Free(hex, '_')
    ensures var parts := IdParts(hex, depth, nonce, induction, qminMode, nxopti);
      forall i :: 0 <= i < |parts| ==> Free(parts[i], '-') && Free(parts[i], '.') && Free(parts[i], '_')
  {
    hide Itoa;
    DigitsOnly(Itoa(depth));
    DigitsOnly(Itoa(nonce));
  }

  lemma DigitsOnly(s: string)
    requires AllDigits(s)
    ensures Free(s, '-') && Free(s, '.') && Free(s, '_')
  {
  }
}
