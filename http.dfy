/**
 * The HTTP side of a download: whether `reqwest::get` produced a response,
 * and the response body as a lazy, finite stream of items
 * (`bytes_stream`), each a chunk of bytes or a transport error.
 */
module Http {
  import opened Wrappers
  import opened Storage

  /** One item of a body stream. */
  datatype Item = Chunk(data: seq<byte>) | ReadError {
    /** The bytes this item delivers (a read error delivers none). */
    function Bytes(): seq<byte> {
      if Chunk? then data else []
    }
  }

  /** The bytes delivered by `items`, in order. */
  function Concat(items: seq<Item>): seq<byte> {
    if items == [] then [] else items[0].Bytes() + Concat(items[1..])
  }

  lemma {:induction false} ConcatAppend(a: seq<Item>, b: seq<Item>)
    ensures Concat(a + b) == Concat(a) + Concat(b)
  {
    if a == [] {
      assert a + b == b;
    } else {
      assert (a + b)[1..] == a[1..] + b;
      ConcatAppend(a[1..], b);
    }
  }

  lemma ConcatSnoc(a: seq<Item>, x: Item)
    ensures Concat(a + [x]) == Concat(a) + x.Bytes()
  {
    ConcatAppend(a, [x]);
    assert Concat([x]) == x.Bytes() + Concat([]);
  }

  /** What is delivered up to any point is a prefix of what the whole stream delivers. */
  lemma ConcatPrefix(items: seq<Item>, k: nat)
    requires k <= |items|
    ensures Concat(items[..k]) <= Concat(items)
  {
    assert items == items[..k] + items[k..];
    ConcatAppend(items[..k], items[k..]);
  }

  /** A body stream read front to back; `pos` items have been taken. */
  class BodyStream {
    const items: seq<Item>
    var pos: nat

    ghost predicate Valid()
      reads this
    {
      pos <= |items|
    }

    constructor (items: seq<Item>)
      ensures Valid() && this.items == items && pos == 0
    {
      this.items := items;
      pos := 0;
    }

    /** `stream.next()`: the next item, or `None` once the stream is exhausted. */
    method Next() returns (next: Option<Item>)
      requires Valid()
      modifies this
      ensures Valid()
      ensures old(pos) < |items| ==> next == Some(items[old(pos)]) && pos == old(pos) + 1
      ensures old(pos) == |items| ==> next == None && pos == old(pos)
    {
      if pos < |items| {
        next := Some(items[pos]);
        pos := pos + 1;
      } else {
        next := None;
      }
    }
  }

  /** What `reqwest::get(url)` gave: no response at all, or a response with its body stream. */
  datatype Fetch = Unreachable | Reached(body: BodyStream)
}
