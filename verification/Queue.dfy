/** The linked write queue, refining a sequence of items. */
module Queues {

  class Link<T> {
    var item: T
    var link: Link?<T>

    constructor (item: T)
      ensures this.item == item && link == null
    {
      this.item := item;
      link := null;
    }
  }

  function Next<T>(links: seq<Link<T>>, i: nat): Link?<T> {
    if i + 1 < |links| then links[i + 1] else null
  }

  class Queue<T> {
    var head: Link?<T>
    var tail: Link?<T>
    var count: nat
    /** The links from head to tail. */
    ghost var links: seq<Link<T>>

    ghost predicate Valid()
      reads this, links
    {
      && count == |links|
      && (forall i, j | 0 <= i < j < |links| :: links[i] != links[j])
      && (forall i | 0 <= i < |links| :: links[i].link == Next(links, i))
      && head == (if links == [] then null else links[0])
      && tail == (if links == [] then null else links[|links| - 1])
    }

    ghost function Items(): (s: seq<T>)
      reads this, links
      ensures |s| == |links|
    {
      seq(|links|, i requires 0 <= i < |links| reads this, links => links[i].item)
    }

    constructor ()
      ensures Valid() && Items() == []
    {
      head, tail, count, links := null, null, 0, [];
    }

    predicate IsEmpty()
      reads this
    {
      head == null
    }

    method Enqueue(item: T)
      requires Valid()
      modifies this, tail
      ensures Valid() && Items() == old(Items()) + [item]
      ensures |links| == |old(links)| + 1 && links[..|old(links)|] == old(links) && fresh(links[|old(links)|])
    {
      var newlink := new Link(item);
      if tail != null {
        tail.link := newlink;
      }
      tail := newlink;
      if head == null {
        head := newlink;
      }
      links := links + [newlink];
      count := count + 1;
    }

    /** The item leaves the queue and its link is dropped. */
    method Dequeue() returns (item: T)
      requires Valid() && !IsEmpty()
      modifies this
      ensures Valid() && old(Items()) == [item] + Items() && links == old(links)[1..]
    {
      item := head.item;
      ghost var was := links;
      assert head == was[0] && was[0].link == Next(was, 0);
      if head.link != null {
        head := head.link;
      } else {
        head := null;
        tail := null;
      }
      links := was[1..];
      count := count - 1;
      assert forall i | 0 <= i < |links| :: links[i] == was[i + 1];
    }

    method Examine() returns (item: T)
      requires Valid() && !IsEmpty()
      ensures Items() != [] && item == Items()[0]
    {
      item := head.item;
    }

    /** isempty looks at head only, count is kept beside it: they agree. */
    lemma EmptyMeansZero()
      requires Valid()
      ensures IsEmpty() <==> count == 0
      ensures IsEmpty() <==> Items() == []
    {
    }
  }
}
