/** A short command for the map, hidden in the handicaps of the occupied slots when the game starts. */
module Hcl {
  import opened GameSlot

  const HCL_CHARS := "abcdefghijklmnopqrstuvwxyz0123456789 -=,."
  const HANDICAPS := 6
  const BYTE_RANGE := 256
  /** How many of the 256 handicaps are not forbidden. */
  const FREE_HANDICAPS := 249

  predicate Forbidden(h: nat) { h == 0 || h == 50 || h == 60 || h == 70 || h == 80 || h == 90 || h == 100 }

  predicate Legal(h: nat) { h == 50 || h == 60 || h == 70 || h == 80 || h == 90 || h == 100 }

  /** What a player can choose, and what a map would not take for a message: the same, and zero. */
  lemma LegalOrForbidden(h: nat)
    ensures Legal(h) <==> h % 10 == 0 && 50 <= h <= 100
    ensures Forbidden(h) <==> Legal(h) || h == 0
  {
  }

  // ----- The encoding of numbers as handicaps -----

  /** The `k`-th handicap that is not forbidden, counted round in 8 bits. */
  function Encoding(k: nat): nat {
    var r := k % FREE_HANDICAPS;
    r + 1 + (if r >= 49 then 1 else 0) + (if r >= 58 then 1 else 0) + (if r >= 67 then 1 else 0)
    + (if r >= 76 then 1 else 0) + (if r >= 85 then 1 else 0) + (if r >= 94 then 1 else 0)
  }

  /** The number that a handicap stands for: how many smaller ones are not forbidden. */
  function Decoding(h: nat): int {
    h - 1 - (if h > 50 then 1 else 0) - (if h > 60 then 1 else 0) - (if h > 70 then 1 else 0)
    - (if h > 80 then 1 else 0) - (if h > 90 then 1 else 0) - (if h > 100 then 1 else 0)
  }

  lemma EncodingIsFree(k: nat)
    requires k < FREE_HANDICAPS
    ensures 0 < Encoding(k) < BYTE_RANGE && !Forbidden(Encoding(k)) && Decoding(Encoding(k)) == k
  {
  }

  method BuildEncodingMap() returns (encodingMap: seq<nat>)
    ensures |encodingMap| == BYTE_RANGE
    ensures forall k :: 0 <= k < BYTE_RANGE ==> encodingMap[k] == Encoding(k)
  {
    hide Encoding;
    encodingMap := [];
    var i, j: nat := 0, 0;
    Start();
    while i < BYTE_RANGE
      invariant i == |encodingMap| <= BYTE_RANGE && j < BYTE_RANGE && Skip(j) == Encoding(i)
      invariant forall k :: 0 <= k < i ==> encodingMap[k] == Encoding(k)
    {
      if j == 0 || j == 50 || j == 60 || j == 70 || j == 80 || j == 90 || j == 100 {
        j := (j + 1) % BYTE_RANGE;
      }
      encodingMap := encodingMap + [j];
      NextFree(i);
      j := (j + 1) % BYTE_RANGE;
      i := i + 1;
    }
  }

  /** The step over a forbidden handicap. */
  function Skip(j: nat): nat { if Forbidden(j) then (j + 1) % BYTE_RANGE else j }

  lemma Start()
    ensures Skip(0) == Encoding(0)
  {
  }

  lemma NextFree(k: nat)
    requires k < BYTE_RANGE
    ensures Skip((Encoding(k) + 1) % BYTE_RANGE) == Encoding(k + 1) && Encoding(k) < BYTE_RANGE
  {
  }

  // ----- Commands -----

  predicate IsChar(c: char) { exists i :: 0 <= i < |HCL_CHARS| && HCL_CHARS[i] == c }

  predicate AllChars(command: string) { forall i :: 0 <= i < |command| ==> IsChar(command[i]) }

  lemma CharsAreIn(command: string)
    ensures AllChars(command) <==> forall i :: 0 <= i < |command| ==> command[i] in HCL_CHARS
  {
    forall i | 0 <= i < |command| ensures IsChar(command[i]) <==> command[i] in HCL_CHARS {
    }
  }

  /** The place of the first occurrence of `c`. */
  function Find(c: char): (k: nat)
    requires IsChar(c)
    ensures k < |HCL_CHARS| && HCL_CHARS[k] == c
  {
    FindFrom(c, 0)
  }

  function FindFrom(c: char, i: nat): (k: nat)
    requires exists j :: i <= j < |HCL_CHARS| && HCL_CHARS[j] == c
    ensures k < |HCL_CHARS| && HCL_CHARS[k] == c
    decreases |HCL_CHARS| - i
  {
    if HCL_CHARS[i] == c then i else FindFrom(c, i + 1)
  }

  predicate LegalHandicaps(slots: seq<Slot>) {
    forall i :: 0 <= i < |slots| && slots[i].status == OCCUPIED ==> Legal(slots[i].handicap)
  }

  function EncodedHandicap(h: nat, c: char): nat
    requires Legal(h) && IsChar(c)
  {
    Encoding((h - 50) / 10 + HANDICAPS * Find(c))
  }

  /** The slots with the command in the first occupied ones. */
  function Encoded(slots: seq<Slot>, command: string): (r: seq<Slot>)
    requires LegalHandicaps(slots) && AllChars(command)
    ensures |r| == |slots|
  {
    if slots == [] || command == "" then slots
    else if slots[0].status != OCCUPIED then [slots[0]] + Encoded(slots[1..], command)
    else [slots[0].(handicap := EncodedHandicap(slots[0].handicap, command[0]))] + Encoded(slots[1..], command[1..])
  }

  /** What a map does: an occupied slot whose handicap is not legal gives a character and its old handicap. */
  function Decoded(slots: seq<Slot>): (string, seq<Slot>) {
    if slots == [] then ("", [])
    else
      var (command, rest) := Decoded(slots[1..]);
      var h := slots[0].handicap;
      if slots[0].status != OCCUPIED || Legal(h) || Decoding(h) < 0 || Decoding(h) / HANDICAPS >= |HCL_CHARS|
        then (command, [slots[0]] + rest)
      else ([HCL_CHARS[Decoding(h) / HANDICAPS]] + command,
        [slots[0].(handicap := 50 + 10 * (Decoding(h) % HANDICAPS))] + rest)
  }

  lemma HandicapDecodes(h: nat, c: char)
    requires Legal(h) && IsChar(c)
    ensures var e := EncodedHandicap(h, c);
      && 0 < e < BYTE_RANGE && !Forbidden(e) && 0 <= Decoding(e) < HANDICAPS * |HCL_CHARS|
      && Decoding(e) / HANDICAPS < |HCL_CHARS| && HCL_CHARS[Decoding(e) / HANDICAPS] == c &&
        50 + 10 * (Decoding(e) % HANDICAPS) == h
  {
    hide Encoding, Decoding, Find, Forbidden, IsChar;
    EncodingIsFree((h - 50) / 10 + HANDICAPS * Find(c));
    SplitNumber((h - 50) / 10, Find(c));
  }

  lemma SplitNumber(low: nat, high: nat)
    requires low < HANDICAPS
    ensures (low + HANDICAPS * high) / HANDICAPS == high && (low + HANDICAPS * high) % HANDICAPS == low
  {
  }

  /** Any command no longer than the occupied slots comes back, and so do the handicaps. */
  lemma {:induction false} DecodesBack(slots: seq<Slot>, command: string)
    requires LegalHandicaps(slots) && AllChars(command) && |command| <= Occupied(slots)
    ensures Decoded(Encoded(slots, command)) == (command, slots)
    decreases |slots|
  {
    hide EncodedHandicap, Decoding, IsChar;
    if slots != [] {
      var slot := slots[0];
      assert slots == [slot] + slots[1..];
      if command == "" || slot.status != OCCUPIED {
        DecodesBack(slots[1..], command);
        assert Encoded(slots, command)[1..] == Encoded(slots[1..], command);
      } else {
        HandicapDecodes(slot.handicap, command[0]);
        DecodesBack(slots[1..], command[1..]);
        assert Encoded(slots, command)[1..] == Encoded(slots[1..], command[1..]);
        assert command == [command[0]] + command[1..];
      }
    }
  }

  /** A handicap that carries a character is none of the forbidden ones, and nothing else is changed. */
  lemma {:induction false} OnlyHandicaps(slots: seq<Slot>, command: string, i: nat)
    requires LegalHandicaps(slots) && AllChars(command) && i < |slots|
    ensures var s := Encoded(slots, command)[i];
      && s == slots[i].(handicap := s.handicap)
      && (s != slots[i] ==> s.status == OCCUPIED && 0 < s.handicap < BYTE_RANGE && !Forbidden(s.handicap))
  {
    hide EncodedHandicap, IsChar, Forbidden;
    if command != "" {
      if slots[0].status == OCCUPIED {
        HandicapDecodes(slots[0].handicap, command[0]);
      }
      if i > 0 {
        OnlyHandicaps(slots[1..], if slots[0].status == OCCUPIED then command[1..] else command, i - 1);
      }
    }
  }

  /** The command from `i` on is still to be put into the slots from `n` on. */
  ghost predicate Progress(slots: seq<Slot>, n: nat, command: string, i: nat, whole: seq<Slot>) {
    && n <= |slots| && i <= |command| && LegalHandicaps(slots[n..]) && AllChars(command) &&
      |command| - i <= Occupied(slots[n..])
    && slots[..n] + Encoded(slots[n..], command[i..]) == whole
  }

  lemma ProgressBegins(slots: seq<Slot>, command: string)
    requires LegalHandicaps(slots) && AllChars(command) && |command| <= Occupied(slots)
    ensures Progress(slots, 0, command, 0, Encoded(slots, command))
  {
    hide Encoded, Occupied, Legal, IsChar;
    assert slots[0..] == slots && command[0..] == command && slots[..0] == [];
  }

  lemma SlotAhead(slots: seq<Slot>, n: nat, command: string, i: nat, whole: seq<Slot>)
    requires Progress(slots, n, command, i, whole) && i < |command|
    ensures n < |slots| && IsChar(command[i]) && (slots[n].status == OCCUPIED ==> Legal(slots[n].handicap))
  {
    hide Encoded, Legal, IsChar;
    assert slots[n..] != [];
    assert slots[n..][0] == slots[n];
  }

  lemma PassesBy(slots: seq<Slot>, n: nat, command: string, i: nat, whole: seq<Slot>)
    requires Progress(slots, n, command, i, whole) && i < |command| && n < |slots| && slots[n].status != OCCUPIED
    ensures Progress(slots, n + 1, command, i, whole)
  {
    hide Legal, IsChar, EncodedHandicap;
    assert slots[n..][0] == slots[n] && slots[n..][1..] == slots[n + 1..] && slots[..n + 1] == slots[..n] + [slots[n]];
  }

  lemma Takes(slots: seq<Slot>, n: nat, command: string, i: nat, whole: seq<Slot>)
    requires Progress(slots, n, command, i, whole) && i < |command| && n < |slots| && slots[n].status == OCCUPIED
    ensures Legal(slots[n].handicap) && IsChar(command[i])
    ensures Progress(slots[n := slots[n].(handicap := EncodedHandicap(slots[n].handicap, command[i]))], n + 1, command,
      i + 1, whole)
  {
    hide Legal, IsChar, EncodedHandicap;
    var rest, tail := slots[n..], command[i..];
    assert rest[0] == slots[n] && rest[1..] == slots[n + 1..] && tail[0] == command[i] && tail[1..] == command[i + 1..];
    var slot := slots[n].(handicap := EncodedHandicap(slots[n].handicap, command[i]));
    var next := slots[n := slot];
    assert next[n + 1..] == slots[n + 1..] && next[..n + 1] == slots[..n] + [slot];
    assert Encoded(rest, tail) == [slot] + Encoded(rest[1..], tail[1..]);
    assert slots[..n] + ([slot] + Encoded(rest[1..], tail[1..])) == next[..n + 1] + Encoded(rest[1..], tail[1..]);
  }

  lemma ProgressEnds(slots: seq<Slot>, n: nat, command: string, whole: seq<Slot>)
    requires Progress(slots, n, command, |command|, whole)
    ensures slots == whole
  {
    hide Legal, IsChar, Occupied;
    assert command[|command|..] == "" && slots[..n] + slots[n..] == slots;
  }

  // ----- The game -----

  class Game {
    var slots: seq<Slot>
    const hclCommand: string

    constructor (slots: seq<Slot>, hclCommand: string)
      ensures this.slots == slots && this.hclCommand == hclCommand
    {
      this.slots, this.hclCommand := slots, hclCommand;
    }

    method GetSlotsOccupied() returns (n: nat)
      ensures n == Occupied(slots)
    {
      n := 0;
      var i := 0;
      assert slots[0..] == slots;
      while i < |slots|
        invariant 0 <= i <= |slots| && n + Occupied(slots[i..]) == Occupied(slots)
      {
        assert slots[i..][1..] == slots[i + 1..];
        if slots[i].status == OCCUPIED {
          n := n + 1;
        }
        i := i + 1;
      }
    }

    method EncodeHcl()
      requires |slots| <= MAX_SLOTS && LegalHandicaps(slots)
      modifies this
      ensures slots == if |hclCommand| <= Occupied(old(slots)) && AllChars(hclCommand)
        then Encoded(old(slots), hclCommand) else old(slots)
    {
      hide Encoding, IsChar, Find, Encoded, Occupied;
      var occupied := GetSlotsOccupied();
      CharsAreIn(hclCommand);
      if |hclCommand| > 0 && |hclCommand| <= occupied
          && forall i :: 0 <= i < |hclCommand| ==> hclCommand[i] in HCL_CHARS {
        EncodeCommand();
      } else if hclCommand == "" {
        ProgressBegins(slots, hclCommand);
        ProgressEnds(slots, 0, hclCommand, Encoded(slots, hclCommand));
      }
    }

    method EncodeCommand()
      requires |slots| <= MAX_SLOTS && LegalHandicaps(slots) && |hclCommand| <= Occupied(slots) && AllChars(hclCommand)
      modifies this
      ensures slots == Encoded(old(slots), hclCommand)
    {
      hide Encoding, IsChar, Find, Encoded, EncodedHandicap, Occupied, Legal, Progress;
      var encodingMap := BuildEncodingMap();
      var currentSlot: nat, i: nat := 0, 0;
      ghost var whole := Encoded(slots, hclCommand);
      ProgressBegins(slots, hclCommand);
      while i < |hclCommand|
        invariant i <= |hclCommand| && Progress(slots, currentSlot, hclCommand, i, whole)
      {
        SlotAhead(slots, currentSlot, hclCommand, i, whole);
        while slots[currentSlot].status != OCCUPIED
          invariant currentSlot < |slots| && Progress(slots, currentSlot, hclCommand, i, whole)
          decreases |slots| - currentSlot
        {
          PassesBy(slots, currentSlot, hclCommand, i, whole);
          currentSlot := currentSlot + 1;
          SlotAhead(slots, currentSlot, hclCommand, i, whole);
        }
        Takes(slots, currentSlot, hclCommand, i, whole);
        var handicap := EncodeSlot(encodingMap, slots[currentSlot].handicap, hclCommand[i]);
        slots := slots[currentSlot := slots[currentSlot].(handicap := handicap)];
        currentSlot := currentSlot + 1;
        i := i + 1;
      }
      ProgressEnds(slots, currentSlot, hclCommand, whole);
    }
  }

  method EncodeSlot(encodingMap: seq<nat>, handicap: nat, character: char) returns (encoded: nat)
    requires |encodingMap| == BYTE_RANGE && forall k :: 0 <= k < BYTE_RANGE ==> encodingMap[k] == Encoding(k)
    requires Legal(handicap) && IsChar(character)
    ensures encoded == EncodedHandicap(handicap, character)
  {
    hide Encoding, IsChar, Find;
    var handicapIndex := (handicap - 50) / 10;
    var charIndex := Find(character);
    encoded := encodingMap[handicapIndex + charIndex * HANDICAPS];
  }
}
