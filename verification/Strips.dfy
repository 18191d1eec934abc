/** The active strips as flags, as the list of their channels, and on the multiplexer's select pins. */
module Strips {
  import opened Binary
  import opened Parameters

  type Channel = c: int | 0 <= c < STRIP_COUNT

  /** The active channels below k, ascending. */
  function ActiveBelow(flags: StripFlags, k: nat): seq<Channel>
    requires k <= STRIP_COUNT
  {
    if k == 0 then [] else ActiveBelow(flags, k - 1) + if flags[k - 1] then [k - 1] else []
  }

  function ActiveList(flags: StripFlags): seq<Channel> {
    ActiveBelow(flags, STRIP_COUNT)
  }

  ghost predicate Ascending(list: seq<Channel>) {
    forall i, j | 0 <= i < j < |list| :: list[i] < list[j]
  }

  /** One more channel, above all in the list. */
  lemma ChannelAdded(list: seq<Channel>, k: Channel)
    requires Ascending(list) && forall c: Channel :: c in list ==> c < k
    ensures Ascending(list + [k])
  {
    forall i | 0 <= i < |list| ensures list[i] < k {
      assert list[i] in list;
    }
  }

  lemma {:induction false} ActiveBelowListed(flags: StripFlags, k: nat)
    requires k <= STRIP_COUNT
    ensures |ActiveBelow(flags, k)| == Count(flags[..k])
    ensures forall c: Channel :: c in ActiveBelow(flags, k) <==> c < k && flags[c]
    ensures Ascending(ActiveBelow(flags, k))
  {
    if k == 0 {
    } else {
      ActiveBelowListed(flags, k - 1);
      assert flags[..k][..k - 1] == flags[..k - 1];
      ChannelAdded(ActiveBelow(flags, k - 1), k - 1);
    }
  }

  /** The list holds exactly the active channels, each once, in ascending order, and is as long as the strip count. */
  lemma ActiveListed(flags: StripFlags)
    ensures |ActiveList(flags)| == Count(flags)
    ensures forall c: Channel :: c in ActiveList(flags) <==> flags[c]
    ensures forall i, j | 0 <= i < j < |ActiveList(flags)| :: ActiveList(flags)[i] < ActiveList(flags)[j]
  {
    ActiveBelowListed(flags, STRIP_COUNT);
    assert flags[..STRIP_COUNT] == flags;
  }

  lemma ActiveListInjective(a: StripFlags, b: StripFlags)
    requires ActiveList(a) == ActiveList(b)
    ensures a == b
  {
    ActiveListed(a);
    ActiveListed(b);
    forall i | 0 <= i < STRIP_COUNT ensures a[i] == b[i] {
      var c: Channel := i;
      assert c in ActiveList(a) <==> c in ActiveList(b);
    }
  }

  /** What FirstActiveStrip returns: the head of the list, -1 if there is none. */
  function FirstActive(flags: StripFlags): int {
    if ActiveList(flags) == [] then -1 else ActiveList(flags)[0]
  }

  /** It is the least active channel, and -1 exactly if there is none. */
  lemma FirstActiveIs(flags: StripFlags, c: Channel)
    ensures FirstActive(flags) == -1 <==> forall d: Channel :: !flags[d]
    ensures flags[c] ==> 0 <= FirstActive(flags) <= c && flags[FirstActive(flags)]
  {
    ActiveListed(flags);
    if ActiveList(flags) != [] {
      assert ActiveList(flags)[0] in ActiveList(flags);
    }
    if flags[c] {
      assert c in ActiveList(flags);
    }
  }

  // ----- Select pins -----

  datatype Pins = Pins(s0: bool, s1: bool, s2: bool)

  /** SelectMuxChannel: the three low bits of the channel taken as a byte. */
  function Select(channel: int): Pins {
    var c := channel % 256;
    Pins(c % 2 == 1, c / 2 % 2 == 1, c / 4 % 2 == 1)
  }

  function Decode(pins: Pins): Channel {
    (if pins.s0 then 1 else 0) + (if pins.s1 then 2 else 0) + if pins.s2 then 4 else 0
  }

  /** Pin 0 is high for the odd channels, and so on; without a channel, that is for -1, all are high. */
  lemma SelectBits(channel: int)
    requires -1 <= channel < 8
    ensures Select(channel).s0 <==> channel in {-1, 1, 3, 5, 7}
    ensures Select(channel).s1 <==> channel in {-1, 2, 3, 6, 7}
    ensures Select(channel).s2 <==> channel in {-1, 4, 5, 6, 7}
  {
  }

  /** The pins carry every channel, so distinct channels get distinct settings. */
  lemma SelectDecodes(channel: Channel)
    ensures Decode(Select(channel)) == channel
  {
  }
}
