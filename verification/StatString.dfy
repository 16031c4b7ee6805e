/** Byte strings without zero bytes: every group of seven bytes is made odd and preceded by a byte that
    says which of them were odd before. */
module StatString {
  import opened Bitmap

  const GROUP := 7

  predicate Odd(b: bv8) { b & 1 == 1 }

  function MadeOdd(b: bv8): bv8 { if Odd(b) then b else b + 1 }

  function AllMadeOdd(group: seq<bv8>): (r: seq<bv8>)
    ensures |r| == |group|
  {
    seq(|group|, k requires 0 <= k < |group| => MadeOdd(group[k]))
  }

  /** Bit `k + 1` says that byte `k` of the group was odd; bit 0 keeps the mask itself odd. */
  function GroupMask(group: seq<bv8>): bv8
    requires |group| <= GROUP
  {
    if group == [] then 1
    else
      var mask := GroupMask(group[..|group| - 1]);
      if Odd(group[|group| - 1]) then Or(mask, Mask(|group|)) else mask
  }

  function Encoded(data: seq<bv8>): seq<bv8> {
    if data == [] then []
    else if |data| <= GROUP then [GroupMask(data)] + AllMadeOdd(data)
    else [GroupMask(data[..GROUP])] + AllMadeOdd(data[..GROUP]) + Encoded(data[GROUP..])
  }

  function Restored(mask: bv8, bytes: seq<bv8>): (r: seq<bv8>)
    requires |bytes| <= GROUP
    ensures |r| == |bytes|
  {
    seq(|bytes|, k requires 0 <= k < |bytes| => RestoredByte(mask, bytes[k], k + 1))
  }

  function RestoredByte(mask: bv8, b: bv8, k: nat): bv8
    requires k < 8
  {
    if HasBit(mask, k) then b else b - 1
  }

  function Decoded(data: seq<bv8>): seq<bv8> {
    if data == [] then []
    else if |data| <= GROUP + 1 then Restored(data[0], data[1..])
    else Restored(data[0], data[1..GROUP + 1]) + Decoded(data[GROUP + 1..])
  }

  lemma {:induction false} MaskBit(group: seq<bv8>, k: nat)
    requires |group| <= GROUP && k < 8
    ensures HasBit(GroupMask(group), k) <==> k == 0 || (k <= |group| && Odd(group[k - 1]))
  {
    hide Mask, Or, HasBit, Odd;
    if group == [] {
      OnlyLowest(k);
    } else {
      MaskBit(group[..|group| - 1], k);
      OrSetsOne(GroupMask(group[..|group| - 1]), |group|, k);
    }
  }

  lemma OnlyLowest(k: nat)
    requires k < 8
    ensures HasBit(1, k) <==> k == 0
  {
    MaskValues();
    hide HasBit, Mask;
    MasksDisjoint(0, k);
    HasBitIsMask(1, k);
  }

  lemma HasBitIsMask(b: bv8, k: nat)
    requires k < 8
    ensures HasBit(b, k) <==> b & Mask(k) != 0
  {
    hide Mask;
  }

  lemma GroupRestored(group: seq<bv8>)
    requires |group| <= GROUP
    ensures Restored(GroupMask(group), AllMadeOdd(group)) == group
  {
    hide GroupMask, HasBit, Odd, MadeOdd, RestoredByte;
    forall k | 0 <= k < |group| ensures RestoredByte(GroupMask(group), MadeOdd(group[k]), k + 1) == group[k] {
      MaskBit(group, k + 1);
      ByteRestored(GroupMask(group), group[k], k + 1);
    }
  }

  lemma ByteRestored(mask: bv8, b: bv8, k: nat)
    requires k < 8 && (HasBit(mask, k) <==> Odd(b))
    ensures RestoredByte(mask, MadeOdd(b), k) == b
  {
    hide HasBit, Odd;
    PlusMinus(b);
  }

  lemma PlusMinus(b: bv8)
    ensures b + 1 - 1 == b
  {
  }

  /** Every byte string comes back. */
  lemma {:induction false} RoundTrip(data: seq<bv8>)
    ensures Decoded(Encoded(data)) == data
  {
    hide GroupMask, Restored, AllMadeOdd;
    if data != [] {
      var group := if |data| <= GROUP then data else data[..GROUP];
      var e := Encoded(data);
      GroupRestored(group);
      if |data| <= GROUP {
        assert e[1..] == AllMadeOdd(data);
      } else {
        RoundTrip(data[GROUP..]);
        NotEmpty(data[GROUP..]);
        assert e[1..GROUP + 1] == AllMadeOdd(group) && e[GROUP + 1..] == Encoded(data[GROUP..]);
        assert data == group + data[GROUP..];
      }
    }
  }

  lemma NotEmpty(data: seq<bv8>)
    requires data != []
    ensures Encoded(data) != []
  {
  }

  /** The encoding has only odd bytes, so none that ends a string, and one more for every seven begun. */
  lemma {:induction false} OnlyOddBytes(data: seq<bv8>)
    ensures forall i :: 0 <= i < |Encoded(data)| ==> Odd(Encoded(data)[i]) && Encoded(data)[i] != 0
    ensures |Encoded(data)| == |data| + (|data| + GROUP - 1) / GROUP
  {
    hide GroupMask, Odd;
    if data != [] {
      var group := if |data| <= GROUP then data else data[..GROUP];
      GroupIsOdd(group);
      if |data| > GROUP {
        OnlyOddBytes(data[GROUP..]);
      }
    }
  }

  lemma GroupIsOdd(group: seq<bv8>)
    requires |group| <= GROUP
    ensures Odd(GroupMask(group)) && GroupMask(group) != 0
    ensures forall k :: 0 <= k < |group| ==> Odd(AllMadeOdd(group)[k]) && AllMadeOdd(group)[k] != 0
  {
    hide GroupMask;
    MaskBit(group, 0);
    LowestBit(GroupMask(group));
  }

  lemma LowestBit(b: bv8)
    ensures HasBit(b, 0) <==> Odd(b)
    ensures Odd(b) ==> b != 0
    ensures Odd(MadeOdd(b)) && MadeOdd(b) != 0
  {
  }

  // ----- The two loops -----

  lemma {:induction false} EncodedInGroups(done: seq<bv8>, rest: seq<bv8>)
    requires |done| % GROUP == 0
    ensures Encoded(done + rest) == Encoded(done) + Encoded(rest)
  {
    hide GroupMask, AllMadeOdd;
    if done == [] {
      assert done + rest == rest;
    } else {
      var group := done[..GROUP];
      EncodedInGroups(done[GROUP..], rest);
      assert (done + rest)[GROUP..] == done[GROUP..] + rest && (done + rest)[..GROUP] == group;
      FullGroup(done);
      if |done + rest| == GROUP {
        assert rest == [] && done + rest == done;
      }
    }
  }

  lemma FullGroup(data: seq<bv8>)
    requires |data| >= GROUP
    ensures Encoded(data) == [GroupMask(data[..GROUP])] + AllMadeOdd(data[..GROUP]) + Encoded(data[GROUP..])
  {
    hide GroupMask, AllMadeOdd;
    if |data| == GROUP {
      assert data[..GROUP] == data && data[GROUP..] == [];
    }
  }

  /** The first `i` bytes are encoded, but for the mask of the group that is not finished. */
  ghost predicate EncodedUpTo(data: seq<bv8>, i: nat, result: seq<bv8>, mask: bv8) {
    i <= |data| &&
    if i == |data| then result == Encoded(data)
    else
      var start := i - i % GROUP;
      result == Encoded(data[..start]) + AllMadeOdd(data[start..i]) && mask == GroupMask(data[start..i])
  }

  lemma NothingEncoded(data: seq<bv8>)
    ensures EncodedUpTo(data, 0, [], 1)
  {
  }

  function NextMask(mask: bv8, b: bv8, i: nat): bv8 { if Odd(b) then Or(mask, Mask(i % GROUP + 1)) else mask }

  lemma WithinGroup(data: seq<bv8>, i: nat, result: seq<bv8>, mask: bv8)
    requires EncodedUpTo(data, i, result, mask) && i < |data| - 1 && i % GROUP != GROUP - 1
    ensures EncodedUpTo(data, i + 1, result + [MadeOdd(data[i])], NextMask(mask, data[i], i))
  {
    hide Odd, Mask, Or, AllMadeOdd, GroupMask, Encoded;
    var start := i - i % GROUP;
    assert i + 1 - (i + 1) % GROUP == start;
    assert data[start..i + 1] == data[start..i] + [data[i]];
    GroupGrows(data[start..i], data[i]);
  }

  /** The mask goes in front of its group. */
  lemma GroupEnds(data: seq<bv8>, i: nat, result: seq<bv8>, mask: bv8)
    requires EncodedUpTo(data, i, result, mask) && i < |data| && (i == |data| - 1 || i % GROUP == GROUP - 1)
    ensures |result| >= i % GROUP
    ensures var r, at := result + [MadeOdd(data[i])], |result| - i % GROUP;
      EncodedUpTo(data, i + 1, r[..at] + [NextMask(mask, data[i], i)] + r[at..], 1)
  {
    hide Odd, Mask, Or, AllMadeOdd, GroupMask, Encoded;
    var start := i - i % GROUP;
    var group := data[start..i + 1];
    assert group == data[start..i] + [data[i]];
    GroupGrows(data[start..i], data[i]);
    var r, at := result + [MadeOdd(data[i])], |result| - i % GROUP;
    assert r[..at] == Encoded(data[..start]) && r[at..] == AllMadeOdd(group);
    EncodedInGroups(data[..start], group);
    assert data[..start] + group == data[..i + 1];
    OneGroup(group);
    assert r[..at] + [NextMask(mask, data[i], i)] + r[at..] == Encoded(data[..start]) + Encoded(group);
    if i == |data| - 1 {
      assert data[..i + 1] == data;
    } else {
      NoGroup(data, i + 1);
      assert i + 1 - (i + 1) % GROUP == i + 1;
    }
  }

  lemma NoGroup(data: seq<bv8>, i: nat)
    requires i <= |data|
    ensures AllMadeOdd(data[i..i]) == [] && GroupMask(data[i..i]) == 1
  {
    assert data[i..i] == [];
  }

  lemma GroupGrows(group: seq<bv8>, b: bv8)
    requires |group| < GROUP
    ensures AllMadeOdd(group + [b]) == AllMadeOdd(group) + [MadeOdd(b)]
    ensures GroupMask(group + [b]) == if Odd(b) then Or(GroupMask(group), Mask(|group| + 1)) else GroupMask(group)
  {
    hide Odd, MadeOdd, Mask, Or;
    assert (group + [b])[..|group|] == group;
  }

  lemma OneGroup(group: seq<bv8>)
    requires 0 < |group| <= GROUP
    ensures Encoded(group) == [GroupMask(group)] + AllMadeOdd(group)
  {
  }

  method EncodeStatString(data: seq<bv8>) returns (result: seq<bv8>)
    ensures result == Encoded(data)
  {
    hide Encoded, EncodedUpTo, Odd, Mask, Or;
    result := [];
    var mask: bv8, i: nat := 1, 0;
    NothingEncoded(data);
    while i < |data|
      invariant i <= |data| && EncodedUpTo(data, i, result, mask)
    {
      if i == |data| - 1 || i % GROUP == GROUP - 1 {
        GroupEnds(data, i, result, mask);
      } else {
        WithinGroup(data, i, result, mask);
      }
      if !Odd(data[i]) {
        result := result + [data[i] + 1];
      } else {
        result := result + [data[i]];
        mask := Or(mask, Mask(i % GROUP + 1));
      }
      if i % GROUP == GROUP - 1 || i == |data| - 1 {
        var at := |result| - 1 - i % GROUP;
        result := result[..at] + [mask] + result[at..];
        mask := 1;
      }
      i := i + 1;
    }
    AllEncoded(data, result, mask);
  }

  lemma AllEncoded(data: seq<bv8>, result: seq<bv8>, mask: bv8)
    requires EncodedUpTo(data, |data|, result, mask)
    ensures result == Encoded(data)
  {
  }

  /** Decoding byte by byte: every eighth byte is a mask. */
  function DecodedFrom(data: seq<bv8>, i: nat, mask: bv8): seq<bv8>
    requires i <= |data|
    decreases |data| - i
  {
    if i == |data| then []
    else if i % (GROUP + 1) == 0 then DecodedFrom(data, i + 1, data[i])
    else [RestoredByte(mask, data[i], i % (GROUP + 1))] + DecodedFrom(data, i + 1, mask)
  }

  method DecodeStatString(data: seq<bv8>) returns (result: seq<bv8>)
    ensures result == Decoded(data)
  {
    hide Decoded, DecodedFrom, RestoredByte, HasBit;
    var mask: bv8, i: nat := 1, 0;
    result := [];
    BytesInGroups(data, 0, mask);
    assert data[0..] == data;
    while i < |data|
      invariant i <= |data| && result + DecodedFrom(data, i, mask) == Decoded(data)
    {
      NextByte(data, i, mask, result);
      if i % 8 == 0 {
        mask := data[i];
      } else if !HasBit(mask, i % 8) {
        result := result + [data[i] - 1];
      } else {
        result := result + [data[i]];
      }
      i := i + 1;
    }
    assert DecodedFrom(data, i, mask) == [] by { NoByte(data, mask); }
  }

  lemma NextByte(data: seq<bv8>, i: nat, mask: bv8, done: seq<bv8>)
    requires i < |data|
    ensures done + DecodedFrom(data, i, mask) ==
            if i % 8 == 0 then done + DecodedFrom(data, i + 1, data[i])
            else if !HasBit(mask, i % 8) then done + [data[i] - 1] + DecodedFrom(data, i + 1, mask)
            else done + [data[i]] + DecodedFrom(data, i + 1, mask)
  {
    hide HasBit;
  }

  lemma NoByte(data: seq<bv8>, mask: bv8)
    ensures DecodedFrom(data, |data|, mask) == []
  {
  }

  /** Byte by byte or group by group is the same, from the beginning of a group. */
  lemma {:induction false} BytesInGroups(data: seq<bv8>, i: nat, mask: bv8)
    requires i <= |data| && i % (GROUP + 1) == 0
    ensures DecodedFrom(data, i, mask) == Decoded(data[i..])
    decreases |data| - i
  {
    hide Restored, Decoded, DecodedFrom;
    if i < |data| {
      var end := if |data| - i <= GROUP + 1 then |data| else i + GROUP + 1;
      MaskByte(data, i, mask);
      RestOfGroup(data, i, i + 1, end);
      FirstGroup(data, i, end);
      if end == |data| {
        NoByte(data, data[i]);
      } else {
        BytesInGroups(data, end, data[i]);
      }
    } else {
      NoByte(data, mask);
      NothingDecoded();
      assert data[i..] == [];
    }
  }

  lemma NothingDecoded()
    ensures Decoded([]) == []
  {
  }

  lemma MaskByte(data: seq<bv8>, i: nat, mask: bv8)
    requires i < |data| && i % (GROUP + 1) == 0
    ensures DecodedFrom(data, i, mask) == DecodedFrom(data, i + 1, data[i])
  {
  }

  /** The group at `i`, which ends at `end`. */
  lemma FirstGroup(data: seq<bv8>, i: nat, end: nat)
    requires i < |data| && end == if |data| - i <= GROUP + 1 then |data| else i + GROUP + 1
    ensures Decoded(data[i..]) ==
      Restored(data[i], data[i + 1..end])[0..] + if end == |data| then [] else Decoded(data[end..])
  {
    hide Restored;
    var rest := data[i..];
    assert rest[0] == data[i] && rest[1..end - i] == data[i + 1..end];
    if |rest| <= GROUP + 1 {
      assert rest[1..] == rest[1..end - i];
    } else {
      assert rest[GROUP + 1..] == data[end..];
    }
  }

  /** The bytes of a group from `k` on, behind its mask at `i`. */
  lemma {:induction false} RestOfGroup(data: seq<bv8>, i: nat, k: nat, end: nat)
    requires i % (GROUP + 1) == 0 && i < k <= end <= |data| && end <= i + GROUP + 1
    ensures DecodedFrom(data, k, data[i]) ==
      Restored(data[i], data[i + 1..end])[k - i - 1..] + DecodedFrom(data, end, data[i])
    decreases end - k
  {
    hide RestoredByte, DecodedFrom, Restored;
    var bytes, n := data[i + 1..end], k - i - 1;
    var r := Restored(data[i], bytes);
    if k < end {
      PlaceInGroup(i, k);
      OneByte(data, k, data[i]);
      RestoredAt(data[i], bytes, n);
      assert bytes[n] == data[k];
      RestOfGroup(data, i, k + 1, end);
      assert r[n..] == [r[n]] + r[n + 1..];
    } else {
      assert r[n..] == [];
    }
  }

  lemma PlaceInGroup(i: nat, k: nat)
    requires i % (GROUP + 1) == 0 && i < k < i + GROUP + 1
    ensures k % (GROUP + 1) == k - i
  {
  }

  lemma OneByte(data: seq<bv8>, k: nat, mask: bv8)
    requires k < |data| && k % (GROUP + 1) != 0
    ensures DecodedFrom(data, k, mask) ==
      [RestoredByte(mask, data[k], k % (GROUP + 1))] + DecodedFrom(data, k + 1, mask)
  {
    hide RestoredByte;
  }

  lemma RestoredAt(mask: bv8, bytes: seq<bv8>, n: nat)
    requires n < |bytes| <= GROUP
    ensures Restored(mask, bytes)[n] == RestoredByte(mask, bytes[n], n + 1)
  {
    hide RestoredByte;
  }
}
