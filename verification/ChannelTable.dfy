/** The slots of ses.channels, and the count kept beside them. */
module ChannelTables {
  import opened ChannelModel
  import opened Channels

  const CHAN_EXTEND_SIZE := 3
  const MAX_CHANNELS := 100

  function Occupied(slots: seq<Channel?>): (n: nat)
    ensures n <= |slots|
  {
    if slots == [] then 0 else (if slots[0] == null then 0 else 1) + Occupied(slots[1..])
  }

  /** The lowest free slot, or the number of slots when none is free. */
  function FirstFree(slots: seq<Channel?>): (i: nat)
    ensures i <= |slots| && (i < |slots| ==> slots[i] == null)
    ensures forall j | 0 <= j < i :: slots[j] != null
  {
    if slots == [] || slots[0] == null then 0 else 1 + FirstFree(slots[1..])
  }

  lemma {:induction false} OccupiedUpdate(slots: seq<Channel?>, i: nat, c: Channel?)
    requires i < |slots|
    ensures Occupied(slots[i := c])
         == Occupied(slots) - (if slots[i] == null then 0 else 1) + (if c == null then 0 else 1)
  {
    if i == 0 {
      assert slots[i := c][1..] == slots[1..];
    } else {
      OccupiedUpdate(slots[1..], i - 1, c);
      assert slots[i := c][1..] == slots[1..][i - 1 := c];
    }
  }

  lemma {:induction false} OccupiedExtend(slots: seq<Channel?>, n: nat)
    ensures Occupied(slots + seq(n, _ => null)) == Occupied(slots)
    decreases |slots| + n
  {
    var more: seq<Channel?> := seq(n, _ => null);
    if slots != [] {
      OccupiedExtend(slots[1..], n);
      assert (slots + more)[1..] == slots[1..] + more;
    } else if n > 0 {
      OccupiedExtend(slots, n - 1);
      assert slots + more == more;
      assert more[1..] == slots + seq(n - 1, _ => null);
    } else {
      assert slots + more == slots;
    }
  }

  class ChannelTable {
    var channels: seq<Channel?>
    var chancount: nat

    ghost predicate Valid()
      reads this
    {
      chancount == Occupied(channels) && |channels| % CHAN_EXTEND_SIZE == 1 && |channels| <= MAX_CHANNELS
    }

    /** chaninitialise: room for a single channel. */
    constructor ()
      ensures Valid() && chancount == 0 && channels == [null]
    {
      channels, chancount := [null], 0;
      assert [null][1..] == [];
    }

    /** newchannel: the lowest free slot, three more when there is none, refused once a hundred are full. */
    method NewChannel(c: Channel) returns (ok: bool, i: nat)
      requires Valid()
      modifies this
      ensures Valid()
      ensures !ok ==> channels == old(channels) && chancount == old(chancount)
      ensures !ok <==> old(chancount) == MAX_CHANNELS
      ensures ok ==> chancount == old(chancount) + 1 && i < |channels| && channels[i] == c
      ensures ok ==> i == FirstFree(old(channels)) && |old(channels)| <= |channels|
      ensures ok ==> forall j | 0 <= j < |channels| && j != i ::
                       channels[j] == if j < |old(channels)| then old(channels)[j] else null
    {
      i := 0;
      while i < |channels| && channels[i] != null
        invariant i <= |channels| && forall j | 0 <= j < i :: channels[j] != null
      {
        i := i + 1;
      }
      FirstFreeIs(channels, i);
      AllOccupied(channels);
      if i == |channels| {
        if |channels| >= MAX_CHANNELS { return false, i; }
        OccupiedExtend(channels, CHAN_EXTEND_SIZE);
        channels := channels + seq(CHAN_EXTEND_SIZE, _ => null);
      }
      OccupiedUpdate(channels, i, c);
      channels := channels[i := c];
      chancount := chancount + 1;
      ok := true;
    }

    /** The last steps of remove_channel, for a channel in the table. */
    method RemoveSlot(c: Channel, i: nat)
      requires Valid() && i < |channels| && channels[i] == c
      modifies this, c`flags
      ensures Valid() && chancount == old(chancount) - 1
      ensures channels == old(channels)[i := null]
      ensures c.View() == Remove(old(c.View()))
    {
      c.RemoveChannel();
      OccupiedUpdate(channels, i, null);
      channels := channels[i := null];
      chancount := chancount - 1;
    }
  }

  lemma {:induction false} AllOccupied(slots: seq<Channel?>)
    ensures Occupied(slots) == |slots| <==> forall j | 0 <= j < |slots| :: slots[j] != null
  {
    if slots != [] { AllOccupied(slots[1..]); }
  }

  lemma FirstFreeIs(slots: seq<Channel?>, i: nat)
    requires i <= |slots| && (i < |slots| ==> slots[i] == null)
    requires forall j | 0 <= j < i :: slots[j] != null
    ensures i == FirstFree(slots)
  {
  }
}
