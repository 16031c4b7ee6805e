/** Players report a checksum with every keepalive; reports with the same number must agree. */
module Desync {

  type Queues = seq<seq<nat>>

  /** How many players come before the first that has no report waiting. */
  function Compared(queues: Queues): (n: nat)
    ensures n <= |queues| && (forall i :: 0 <= i < n ==> queues[i] != []) && (n < |queues| ==> queues[n] == [])
  {
    if queues == [] || queues[0] == [] then 0 else 1 + Compared(queues[1..])
  }

  /** The reports at the front of the first `n` queues are all `first`. */
  predicate Agree(queues: Queues, n: nat, first: nat)
    requires n <= |queues| && forall i :: 0 <= i < n ==> queues[i] != []
  {
    forall i :: 0 <= i < n ==> queues[i][0] == first
  }

  function PopAll(queues: Queues): Queues
    requires forall i :: 0 <= i < |queues| ==> queues[i] != []
  {
    seq(|queues|, i requires 0 <= i < |queues| => queues[i][1..])
  }

  function Fronts(queues: Queues): (row: seq<nat>)
    requires forall i :: 0 <= i < |queues| ==> queues[i] != []
    ensures |row| == |queues|
  {
    seq(|queues|, i requires 0 <= i < |queues| => queues[i][0])
  }

  predicate Unanimous(row: seq<nat>) { forall a, b :: 0 <= a < |row| && 0 <= b < |row| ==> row[a] == row[b] }

  function Pushed(queues: Queues, i: nat, report: nat): Queues
    requires i < |queues|
  {
    queues[i := queues[i] + [report]]
  }

  /** Each queue is what its player reported after as many reports as there are rows; those left the queues
      together, row by row; and unless a desync was detected every row agreed. */
  ghost predicate Sound(queues: Queues, desynced: bool, reports: Queues, rows: Queues) {
    && |reports| == |queues|
    && (forall i :: 0 <= i < |reports| ==> |rows| <= |reports[i]| && queues[i] == reports[i][|rows|..])
    && (forall i, k :: 0 <= i < |reports| && 0 <= k < |rows| ==> reports[i][k] in rows[k])
    && (!desynced ==> forall k :: 0 <= k < |rows| ==> Unanimous(rows[k]))
  }

  lemma PushIsSound(queues: Queues, desynced: bool, reports: Queues, rows: Queues, i: nat, report: nat)
    requires Sound(queues, desynced, reports, rows) && i < |queues|
    ensures Sound(Pushed(queues, i, report), desynced, Pushed(reports, i, report), rows)
    ensures i < |reports| && |rows| < |Pushed(reports, i, report)[i]|
    ensures Pushed(queues, i, report)[i][0] == Pushed(reports, i, report)[i][|rows|]
  {
    hide Unanimous;
    assert (reports[i] + [report])[|rows|..] == reports[i][|rows|..] + [report];
  }

  lemma PopIsSound(queues: Queues, desynced: bool, reports: Queues, rows: Queues, first: nat)
    requires Sound(queues, desynced, reports, rows) && forall i :: 0 <= i < |queues| ==> queues[i] != []
    requires desynced || Agree(queues, |queues|, first)
    ensures Sound(PopAll(queues), desynced, reports, rows + [Fronts(queues)])
  {
    var row, after := Fronts(queues), rows + [Fronts(queues)];
    forall i | 0 <= i < |reports|
      ensures |after| <= |reports[i]| && queues[i][1..] == reports[i][|after|..] && reports[i][|rows|] in row
    {
      assert reports[i][|rows|] == queues[i][0] == row[i];
    }
  }

  class Game {
    var checkSums: Queues
    var desynced: bool
    /** Everything the players still in the game have reported since it was loaded, and the rows of
        reports that have left the queues. */
    ghost var reports: Queues
    ghost var rows: Queues

    ghost predicate Valid()
      reads this
    {
      Sound(checkSums, desynced, reports, rows)
    }

    constructor (players: nat)
      ensures Valid() && |checkSums| == players && !desynced && rows == []
      ensures forall i :: 0 <= i < players ==> checkSums[i] == []
    {
      checkSums, reports := seq(players, _ => []), seq(players, _ => []);
      desynced, rows := false, [];
    }

    /** A player has left; the others stay in order. */
    method Leave(i: nat)
      requires Valid() && i < |checkSums|
      modifies this`checkSums, this`reports
      ensures Valid() && checkSums == old(checkSums[..i] + checkSums[i + 1..])
      ensures reports == old(reports[..i] + reports[i + 1..])
    {
      hide Unanimous;
      checkSums := checkSums[..i] + checkSums[i + 1..];
      reports := reports[..i] + reports[i + 1..];
    }

    /** A keepalive of player `i`. Reports are compared with the others of the same number, as far as there
        are any; a number that everyone has reported is done with. */
    method KeepAlive(i: nat, checkSum: nat)
      requires Valid() && i < |checkSums|
      modifies this
      ensures Valid() && reports == Pushed(old(reports), i, checkSum)
      ensures var queues := Pushed(old(checkSums), i, checkSum); var n := Compared(queues);
        && (desynced <==> old(desynced) || !Agree(queues, n, queues[i][0]))
        && checkSums == (if n == |queues| then PopAll(queues) else queues)
        && rows == (if n == |queues| then old(rows) + [Fronts(queues)] else old(rows))
    {
      hide Sound;
      PushIsSound(checkSums, desynced, reports, rows, i, checkSum);
      checkSums := checkSums[i := checkSums[i] + [checkSum]];
      reports := Pushed(reports, i, checkSum);
      var firstCheckSum := checkSums[i][0];
      var j := 0;
      while j < |checkSums|
        invariant 0 <= j <= Compared(checkSums)
        invariant desynced <==> old(desynced) || !Agree(checkSums, j, firstCheckSum)
        modifies this`desynced
      {
        if |checkSums[j]| == 0 {
          StaysSound(checkSums, old(desynced), desynced, reports, rows);
          return;
        }
        StillComparing(checkSums, j);
        if !desynced && checkSums[j][0] != firstCheckSum {
          desynced := true;
        }
        j := j + 1;
      }
      StaysSound(checkSums, old(desynced), desynced, reports, rows);
      PopIsSound(checkSums, desynced, reports, rows, firstCheckSum);
      rows := rows + [Fronts(checkSums)];
      Pop();
    }

    method Pop()
      requires forall i :: 0 <= i < |checkSums| ==> checkSums[i] != []
      modifies this`checkSums
      ensures checkSums == PopAll(old(checkSums))
    {
      var j := 0;
      while j < |checkSums|
        invariant 0 <= j <= |checkSums| == |old(checkSums)|
        invariant forall k :: 0 <= k < |checkSums| ==>
          checkSums[k] == if k < j then old(checkSums)[k][1..] else old(checkSums)[k]
      {
        checkSums := checkSums[j := checkSums[j][1..]];
        j := j + 1;
      }
    }
  }

  lemma StaysSound(queues: Queues, before: bool, desynced: bool, reports: Queues, rows: Queues)
    requires Sound(queues, before, reports, rows) && (before ==> desynced)
    ensures Sound(queues, desynced, reports, rows)
  {
  }

  lemma StillComparing(queues: Queues, j: nat)
    requires j <= Compared(queues) && j < |queues| && queues[j] != []
    ensures j < Compared(queues)
  {
  }

  /** A desync is detected only on a real disagreement: two players reported different checksums under
      the same number. */
  lemma DesyncIsReal(queues: Queues, desynced: bool, reports: Queues, rows: Queues, i: nat)
    requires Sound(queues, desynced, reports, rows) && i < |queues| && queues[i] != []
    requires !Agree(queues, Compared(queues), queues[i][0])
    ensures |rows| < |reports[i]|
    ensures exists j :: 0 <= j < |reports| && |rows| < |reports[j]| && reports[j][|rows|] != reports[i][|rows|]
  {
    var j :| 0 <= j < Compared(queues) && queues[j][0] != queues[i][0];
    assert reports[j][|rows|] == queues[j][0] && reports[i][|rows|] == queues[i][0];
  }

  /** While no desync was detected, the players still in the game agree in every number that all have reported. */
  lemma NoDesyncMeansAgreement(queues: Queues, reports: Queues, rows: Queues, i: nat, j: nat, k: nat)
    requires Sound(queues, false, reports, rows) && i < |reports| && j < |reports| && k < |rows|
    ensures reports[i][k] == reports[j][k]
  {
    assert reports[i][k] in rows[k] && reports[j][k] in rows[k] && Unanimous(rows[k]);
  }
}
