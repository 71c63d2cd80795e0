/** The fixed logical-to-physical pixel order of the two 42-LED channels
    (`orderMap` and the segment bounds in software/src/main.cpp). Every pixel
    write of the firmware goes through `OrderMap`. */
module PixelMap {

  /** LEDs per channel (`nleds`) and number of channels (`nchans`). */
  const StripLength: nat := 42
  const PixelCount: nat := 84

  /** Segment bounds of the logical index space, as the macros define them. */
  const LeftStart: nat := 0
  const LeftEnd: nat := 27
  const FrontStart: nat := 27
  const FrontEnd: nat := 42
  const RightStart: nat := 42
  const RightEnd: nat := 68
  const BackStart: nat := 68
  const BackEnd: nat := 84

  /** Logical pixel index to physical slot: left and front are wired in order,
      the right side is reversed (logical 42..68 go to slots 68..42), the back
      is in order again. The table is written in two halves of one channel's
      length each: the left and front entries, then the right and back ones. */
  const LeftFrontOrder: seq<int> := [
    0, 1, 2, 3, 4, 5, 6, 7, 8, 9, 10, 11, 12, 13,
    14, 15, 16, 17, 18, 19, 20, 21, 22, 23, 24, 25, 26, 27,
    28, 29, 30, 31, 32, 33, 34, 35, 36, 37, 38, 39, 40, 41
  ]
  const RightBackOrder: seq<int> := [
    68, 67, 66, 65, 64, 63, 62, 61, 60, 59, 58, 57, 56, 55,
    54, 53, 52, 51, 50, 49, 48, 47, 46, 45, 44, 43, 42, 69,
    70, 71, 72, 73, 74, 75, 76, 77, 78, 79, 80, 81, 82, 83
  ]
  const OrderMap: seq<int> := LeftFrontOrder + RightBackOrder

  /** Closed form of the table: entries 42..68 are reflected around 55, the
      others are the identity. */
  function Slot(i: int): int {
    if RightStart <= i <= RightEnd then 110 - i else i
  }

  predicate IsIndex(i: int) {
    0 <= i < PixelCount
  }

  /** The literal table agrees with its closed form everywhere. */
  lemma OrderMapIsSlot()
    ensures |OrderMap| == PixelCount
    ensures forall i :: IsIndex(i) ==> OrderMap[i] == Slot(i)
  {
    assert forall i :: 0 <= i < StripLength ==> LeftFrontOrder[i] == Slot(i);
    assert forall i :: 0 <= i < StripLength ==> RightBackOrder[i] == Slot(i + StripLength);
  }

  /** The table maps [0,84) into [0,84) and is its own inverse. */
  lemma OrderMapInvolution()
    ensures |OrderMap| == PixelCount
    ensures forall i :: IsIndex(i) ==> IsIndex(OrderMap[i])
    ensures forall i {:trigger OrderMap[OrderMap[i]]} :: IsIndex(i) ==> OrderMap[OrderMap[i]] == i
  {
    OrderMapIsSlot();
  }

  /** The table is a bijection on [0,84): injective, and every physical slot
      is the image of exactly one logical index. */
  lemma OrderMapBijection()
    ensures |OrderMap| == PixelCount
    ensures forall i, j :: IsIndex(i) && IsIndex(j) && OrderMap[i] == OrderMap[j] ==> i == j
    ensures forall s :: IsIndex(s) ==> exists i :: IsIndex(i) && OrderMap[i] == s
  {
    OrderMapInvolution();
    forall s | IsIndex(s) ensures exists i :: IsIndex(i) && OrderMap[i] == s {
      assert OrderMap[OrderMap[s]] == s;
    }
  }

  /** The closed form maps [0,84) into [0,84) and is its own inverse. */
  lemma SlotInvolution()
    ensures forall i :: IsIndex(i) ==> IsIndex(Slot(i))
    ensures forall i {:trigger Slot(Slot(i))} :: IsIndex(i) ==> Slot(Slot(i)) == i
  {
  }

  /** The physical frame obtained by writing every logical pixel `i` of
      `logical` to slot `OrderMap[i]`, that is `Slot(i)`. */
  function Scatter(logical: seq<int>): (frame: seq<int>)
    requires |logical| == PixelCount
    ensures |frame| == PixelCount
  {
    seq(PixelCount, s requires 0 <= s < PixelCount => logical[Slot(s)])
  }

  /** Writing through the map and reading back through it is the identity. */
  lemma ScatterAt(logical: seq<int>, i: int)
    requires |logical| == PixelCount && IsIndex(i)
    ensures IsIndex(Slot(i))
    ensures Scatter(logical)[Slot(i)] == logical[i]
  {
  }

  /** A frame in which every logical pixel's slot holds that pixel's colour
      is the scattered frame: writing all 84 logical pixels through the map
      determines every physical slot. */
  lemma ScatterUnique(frame: seq<int>, logical: seq<int>)
    requires |frame| == PixelCount && |logical| == PixelCount
    requires forall k :: IsIndex(k) ==> IsIndex(Slot(k)) && frame[Slot(k)] == logical[k]
    ensures frame == Scatter(logical)
  {
    SlotInvolution();
    forall s | IsIndex(s) ensures frame[s] == Scatter(logical)[s] {
      assert frame[Slot(Slot(s))] == logical[Slot(s)];
    }
  }
}
