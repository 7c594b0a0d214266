/**
 The symptom normaliser of the symptom-checker page (`formatSymptoms`): the free
 text typed by the user becomes the list of symptoms sent to the analysis API.
 The page computes it as

   trim the text, collapse every whitespace run to one space,
   split at commas, trim every piece, drop the empty pieces.

 The main theorem of this module, `FormatMatchesPieces`, states the same list
 piece by piece: it is exactly the comma-separated pieces of the raw text that
 are not blank, in their original order, each with its outer whitespace removed
 and its inner whitespace runs collapsed.
 */
module Symptoms {
  import opened Text

  const Comma: char := ','

  // ---------------------------------------------------------------------------
  // The pipeline as the page writes it
  // ---------------------------------------------------------------------------

  /** Every element is trimmed and free of commas. */
  predicate AllTrimmedNoComma(r: seq<string>) {
    forall i :: 0 <= i < |r| ==> Trimmed(r[i]) && Comma !in r[i]
  }

  /** `pieces.map(s => s.trim())`. */
  function TrimEach(ps: seq<string>): (r: seq<string>)
    ensures |r| == |ps|
    ensures forall i :: 0 <= i < |ps| ==> r[i] == Trim(ps[i])
  {
    if ps == [] then [] else [Trim(ps[0])] + TrimEach(ps[1..])
  }

  /** `pieces.filter(s => s.length > 0)`. */
  function DropEmpty(ps: seq<string>): (r: seq<string>)
    ensures |r| <= |ps|
    ensures forall i :: 0 <= i < |r| ==> r[i] != [] && r[i] in ps
    ensures forall p :: p in ps && p != [] ==> p in r
  {
    if ps == [] then []
    else if ps[0] == [] then DropEmpty(ps[1..])
    else [ps[0]] + DropEmpty(ps[1..])
  }

  /** Filtering one piece keeps it exactly when it is non-empty. */
  lemma DropEmptySingle(p: string)
    ensures DropEmpty([p]) == if p == [] then [] else [p]
  {
  }

  /** Filtering a concatenation filters each part in place: the kept pieces
      stay in their order, and repeated pieces are all kept. */
  lemma {:induction false} DropEmptyConcat(a: seq<string>, b: seq<string>)
    ensures DropEmpty(a + b) == DropEmpty(a) + DropEmpty(b)
    decreases |a|
  {
    if a == [] {
      assert a + b == b;
    } else {
      assert (a + b)[0] == a[0] && (a + b)[1..] == a[1..] + b;
      DropEmptyConcat(a[1..], b);
    }
  }

  /** `formatSymptoms`: every element is a non-empty symptom with no whitespace
      at either end and no comma. */
  function FormatSymptoms(symptoms: string): (r: seq<string>)
    ensures AllTrimmedNoComma(r)
  {
    var pieces := Split(Collapse(Trim(symptoms)), Comma);
    TrimmedPiecesShape(pieces);
    DropEmpty(TrimEach(pieces))
  }

  lemma {:induction false} TrimmedPiecesShape(ps: seq<string>)
    requires forall i :: 0 <= i < |ps| ==> Comma !in ps[i]
    ensures AllTrimmedNoComma(DropEmpty(TrimEach(ps)))
    decreases |ps|
  {
    if ps != [] {
      TrimmedPiecesShape(ps[1..]);
      TrimKeepsOut(ps[0], Comma);
      var ts := TrimEach(ps);
      assert ts == [Trim(ps[0])] + TrimEach(ps[1..]);
      assert ts[1..] == TrimEach(ps[1..]);
    }
  }

  lemma TrimKeepsOut(s: string, c: char)
    requires c !in s
    ensures c !in Trim(s)
  {
    TrimInside(s);
    var t := TrimStart(s);
    assert t == s[|s| - |t|..];
    assert Trim(s) == t[..|Trim(s)|];
  }

  // ---------------------------------------------------------------------------
  // The reference: normalise the raw comma-separated pieces
  // ---------------------------------------------------------------------------

  /** One symptom as the user means it: outer whitespace removed, inner
      whitespace runs shown as one space. */
  function Normalize(piece: string): string {
    Collapse(Trim(piece))
  }

  /** The non-blank pieces, normalised, in order. */
  function NormalizedPieces(ps: seq<string>): seq<string> {
    if ps == [] then []
    else (if Blank(ps[0]) then [] else [Normalize(ps[0])]) + NormalizedPieces(ps[1..])
  }

  /** `formatSymptoms` lists exactly the non-blank comma-separated pieces of the
      raw text, normalised, in their original left-to-right order. */
  lemma {:induction false} FormatMatchesPieces(symptoms: string)
    ensures FormatSymptoms(symptoms) == NormalizedPieces(Split(symptoms, Comma))
  {
    var m := Trim(symptoms);
    SplitCollapse(m);
    TrimAfterCollapse(Split(m, Comma));
    PiecesIgnoreOuterWs(symptoms);
  }

  /** Every listed symptom is single-spaced, comma-free, non-empty and has no
      whitespace at either end. */
  lemma {:induction false} FormatElements(symptoms: string)
    ensures forall i :: 0 <= i < |FormatSymptoms(symptoms)| ==>
      Tidy(FormatSymptoms(symptoms)[i]) && Comma !in FormatSymptoms(symptoms)[i]
  {
    FormatMatchesPieces(symptoms);
    NormalizedTidy(Split(symptoms, Comma));
  }

  /** The list is empty exactly when every comma-separated piece is blank, so a
      non-blank text such as ",,," still yields no symptom. */
  lemma {:induction false} FormatEmptyIffAllBlank(symptoms: string)
    ensures var ps := Split(symptoms, Comma);
      FormatSymptoms(symptoms) == [] <==> forall i :: 0 <= i < |ps| ==> Blank(ps[i])
  {
    FormatMatchesPieces(symptoms);
    NormalizedEmptyIffAllBlank(Split(symptoms, Comma));
  }

  /** The text ",,," is not blank, yet it yields no symptom. */
  lemma OnlyCommas()
    ensures !Blank(",,,")
    ensures FormatSymptoms(",,,") == []
  {
    var ps: seq<string> := [[], [], [], []];
    CommasSplit(ps);
    assert forall i :: 0 <= i < |ps| ==> Blank(ps[i]) by {
      assert Trim([]) == [];
    }
    FormatEmptyIffAllBlank(",,,");
    CommasNotBlank();
  }

  lemma CommasSplit(ps: seq<string>)
    requires ps == [[], [], [], []]
    ensures Split(",,,", Comma) == ps
  {
    assert Join(ps[3..], Comma) == [];
    assert Join(ps[2..], Comma) == [Comma];
    assert Join(ps[1..], Comma) == [Comma, Comma];
    assert Join(ps, Comma) == ",,,";
    SplitJoin(ps, Comma);
  }

  lemma CommasNotBlank()
    ensures !Blank(",,,")
  {
    assert !IsWs(",,,"[0]);
    BlankIffAllWs(",,,");
  }

  // ---------------------------------------------------------------------------
  // Proof of the main theorem
  // ---------------------------------------------------------------------------

  function CollapseEach(ps: seq<string>): (r: seq<string>)
    ensures |r| == |ps|
    ensures forall i :: 0 <= i < |ps| ==> r[i] == Collapse(ps[i])
  {
    if ps == [] then [] else [Collapse(ps[0])] + CollapseEach(ps[1..])
  }

  lemma CollapseEachCons(p: string, ps: seq<string>)
    ensures CollapseEach([p] + ps) == [Collapse(p)] + CollapseEach(ps)
  {
  }

  lemma CollapseEachTail(ps: seq<string>)
    requires |ps| > 0
    ensures CollapseEach(ps) == [Collapse(ps[0])] + CollapseEach(ps[1..])
  {
  }

  lemma SplitConsSep(u: string)
    ensures Split([Comma] + u, Comma) == [[]] + Split(u, Comma)
  {
    assert ([Comma] + u)[1..] == u;
  }

  /** Splitting at commas commutes with collapsing whitespace, since a comma is
      not whitespace and so never lies inside a whitespace run. */
  lemma {:induction false} SplitCollapse(x: string)
    ensures Split(Collapse(x), Comma) == CollapseEach(Split(x, Comma))
    decreases |x|
  {
    if |x| == 0 {
    } else if !IsWs(x[0]) {
      var c, x' := x[0], x[1..];
      assert x == [c] + x';
      CollapseVisibleHead(c, x');
      SplitCollapse(x');
      var t := Split(x', Comma);
      if c == Comma {
        SplitConsSep(Collapse(x'));
        SplitConsSep(x');
        CollapseEachCons([], t);
      } else {
        SplitConsChar(c, Collapse(x'), Comma);
        SplitConsChar(c, x', Comma);
        CollapseEachTail(t);
        CollapseVisibleHead(c, t[0]);
        CollapseEachCons([c] + t[0], t[1..]);
      }
    } else {
      var t := TrimStart(x);
      var w := x[..|x| - |t|];
      TrimStartSuffix(x);
      assert x == w + t;
      assert Comma !in w by {
        assert !IsWs(Comma);
      }
      assert TrimStart(t) == t;
      CollapseWsHead(w, t);
      SplitCollapse(t);
      var ts := Split(t, Comma);
      SplitConsChar(' ', Collapse(t), Comma);
      SplitPrepend(w, t, Comma);
      CollapseEachTail(ts);
      assert ts[0] <= t;
      assert TrimStart(ts[0]) == ts[0];
      CollapseWsHead(w, ts[0]);
      CollapseEachCons(w + ts[0], ts[1..]);
    }
  }

  /** Trimming the collapsed pieces and dropping the empty ones gives the
      normalised non-blank pieces. */
  lemma {:induction false} TrimAfterCollapse(ps: seq<string>)
    ensures DropEmpty(TrimEach(CollapseEach(ps))) == NormalizedPieces(ps)
    decreases |ps|
  {
    if ps != [] {
      var p := ps[0];
      TrimAfterCollapse(ps[1..]);
      CollapseEachTail(ps);
      var cs := CollapseEach(ps);
      assert TrimEach(cs) == [Trim(cs[0])] + TrimEach(cs[1..]);
      TrimCollapse(p);
      assert (Trim(cs[0]) == []) == Blank(p);
    }
  }

  /** Pieces with the same trimmed text give the same normalised list. */
  lemma {:induction false} NormalizedSameTrim(ps: seq<string>, qs: seq<string>)
    requires |ps| == |qs|
    requires forall i :: 0 <= i < |ps| ==> Trim(ps[i]) == Trim(qs[i])
    ensures NormalizedPieces(ps) == NormalizedPieces(qs)
    decreases |ps|
  {
    if ps != [] {
      NormalizedSameTrim(ps[1..], qs[1..]);
    }
  }

  /** Whitespace before the first or after the last comma-separated piece does
      not change the normalised list. */
  lemma {:induction false} PiecesIgnoreOuterWs(s: string)
    ensures NormalizedPieces(Split(Trim(s), Comma)) == NormalizedPieces(Split(s, Comma))
  {
    var t, m := TrimStart(s), Trim(s);
    TrimInside(s);
    ThreeParts(s, t, m);
    PiecesIgnoreWsAround(s[..|s| - |t|], m, t[|m|..]);
  }

  lemma PiecesIgnoreWsAround(lead: string, m: string, trail: string)
    requires AllWs(lead) && AllWs(trail)
    ensures NormalizedPieces(Split(lead + (m + trail), Comma)) == NormalizedPieces(Split(m, Comma))
  {
    PiecesIgnoreTrailingWs(m, trail);
    PiecesIgnoreLeadingWs(lead, m + trail);
  }

  lemma {:induction false} PiecesIgnoreLeadingWs(lead: string, x: string)
    requires AllWs(lead)
    ensures NormalizedPieces(Split(lead + x, Comma)) == NormalizedPieces(Split(x, Comma))
  {
    assert Comma !in lead by {
      assert !IsWs(Comma);
    }
    SplitPrepend(lead, x, Comma);
    var q := Split(x, Comma);
    var whole := Split(lead + x, Comma);
    assert whole == [lead + q[0]] + q[1..];
    forall i | 0 <= i < |q| ensures Trim(whole[i]) == Trim(q[i]) {
      if i == 0 {
        TrimWsPrefix(lead, q[0]);
      } else {
        assert whole[i] == q[i];
      }
    }
    NormalizedSameTrim(whole, q);
  }

  lemma {:induction false} PiecesIgnoreTrailingWs(x: string, trail: string)
    requires AllWs(trail)
    ensures NormalizedPieces(Split(x + trail, Comma)) == NormalizedPieces(Split(x, Comma))
  {
    assert Comma !in trail by {
      assert !IsWs(Comma);
    }
    SplitAppend(x, trail, Comma);
    var q := Split(x, Comma);
    var n := |q|;
    var whole := Split(x + trail, Comma);
    assert whole == q[..n - 1] + [q[n - 1] + trail];
    forall i | 0 <= i < n ensures Trim(whole[i]) == Trim(q[i]) {
      if i == n - 1 {
        TrimWsSuffix(q[i], trail);
      } else {
        assert whole[i] == q[i];
      }
    }
    NormalizedSameTrim(whole, q);
  }

  /** A symptom as the user would type it neatly: non-empty, no whitespace at
      either end, single spaces inside. */
  predicate Tidy(e: string) {
    Trimmed(e) && SingleSpaced(e)
  }

  lemma NormalizeTidy(p: string)
    requires !Blank(p)
    ensures Tidy(Normalize(p))
  {
    var t := Trim(p);
    CollapseSingleSpaced(t);
    CollapseTrimmed(t);
  }

  predicate AllTidy(r: seq<string>) {
    forall i :: 0 <= i < |r| ==> Tidy(r[i])
  }

  lemma {:induction false} NormalizedTidy(ps: seq<string>)
    ensures AllTidy(NormalizedPieces(ps))
    decreases |ps|
  {
    if ps != [] {
      NormalizedTidy(ps[1..]);
      var head := if Blank(ps[0]) then [] else [Normalize(ps[0])];
      if !Blank(ps[0]) {
        NormalizeTidy(ps[0]);
      }
      AllTidyConcat(head, NormalizedPieces(ps[1..]));
    }
  }

  lemma AllTidyConcat(a: seq<string>, b: seq<string>)
    requires AllTidy(a) && AllTidy(b)
    ensures AllTidy(a + b)
  {
    forall i | 0 <= i < |a + b| ensures Tidy((a + b)[i]) {
      if i >= |a| {
        assert (a + b)[i] == b[i - |a|];
      }
    }
  }

  lemma {:induction false} NormalizedEmptyIffAllBlank(ps: seq<string>)
    ensures NormalizedPieces(ps) == [] <==> forall i :: 0 <= i < |ps| ==> Blank(ps[i])
    decreases |ps|
  {
    if ps != [] {
      NormalizedEmptyIffAllBlank(ps[1..]);
      var head := if Blank(ps[0]) then [] else [Normalize(ps[0])];
      assert NormalizedPieces(ps) == head + NormalizedPieces(ps[1..]);
      if forall i :: 0 <= i < |ps| ==> Blank(ps[i]) {
        assert forall i :: 0 <= i < |ps[1..]| ==> Blank(ps[1..][i]) by {
          forall i | 0 <= i < |ps[1..]| ensures Blank(ps[1..][i]) {
            assert ps[1..][i] == ps[i + 1];
          }
        }
      } else if Blank(ps[0]) {
        var j :| 0 <= j < |ps| && !Blank(ps[j]);
        assert ps[j] == ps[1..][j - 1];
      }
    }
  }
}
