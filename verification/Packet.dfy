/** Packets of the game: a header byte, the packet's number, and its length in two bytes. */
module Packet {
  import opened Bytes

  const HEADER: bv8 := 247
  const LENGTH_RANGE := 0x1_0000

  /** The packet with its size, cut to 16 bits, put into its third and fourth bytes. */
  function AssignLength(packet: seq<bv8>): (r: seq<bv8>)
    requires |packet| >= 4
    ensures |r| == |packet| && r[..2] == packet[..2] && r[4..] == packet[4..]
  {
    packet[2 := Octet(|packet|)][3 := Octet(|packet| / 0x100)]
  }

  /** The length field is right exactly as long as the size fits into it. */
  lemma LengthField(packet: seq<bv8>)
    requires |packet| >= 4
    ensures FromLe(AssignLength(packet)[2..4]) == |packet| % LENGTH_RANGE
    ensures FromLe(AssignLength(packet)[2..4]) == |packet| <==> |packet| < LENGTH_RANGE
  {
    hide Octet, FromLe;
    var n, r := |packet|, AssignLength(packet);
    assert r[2..4] == [r[2], r[3]];
    TwoBytes(r[2], r[3]);
    LowBytes(n);
  }

  /** Two bytes hold a number modulo 2^16. */
  lemma Le16Low(n: nat)
    ensures FromLe(Le(n, 2)) == n % LENGTH_RANGE
  {
    hide Octet, FromLe;
    assert Le(n / 0x100, 1) == [Octet(n / 0x100)];
    assert Le(n, 2) == [Octet(n), Octet(n / 0x100)];
    TwoBytes(Octet(n), Octet(n / 0x100));
    LowBytes(n);
  }

  lemma ShortLength(packet: seq<bv8>)
    requires |packet| == 6
    ensures AssignLength(packet)[2] == 6 && AssignLength(packet)[3] == 0
  {
    hide Octet;
    assert Octet(6) == 6 by { SameOctet(Octet(6), 6); }
    assert Octet(0) == 0 by { SameOctet(Octet(0), 0); }
  }

  lemma LowBytes(n: nat)
    ensures n % 0x100 + 0x100 * (n / 0x100 % 0x100) == n % LENGTH_RANGE
  {
  }

  lemma TwoBytes(low: bv8, high: bv8)
    ensures FromLe([low, high]) == low as nat + 0x100 * high as nat
  {
    assert [low, high][1..] == [high] && [high][1..] == [];
    assert FromLe([high]) == high as nat;
  }
}
