/** The byte-supply callback the MP3 decoder pulls its input from
    (`mp3_music_read_cb`). The file-scope `file_marker` is a cursor over
    one immutable embedded asset; here it is the value `Marker`, and a call
    of the callback is the pure function `Read`, which returns the reply
    handed to the decoder together with the advanced marker. */
module TrackStream {

  type Byte = bv8
  type Bytes = seq<Byte>

  /** `data` stands for the byte range [start, end) of the selected asset,
      `pos` for the number of bytes of it already handed out. */
  datatype Marker = Marker(data: Bytes, pos: int)

  /** The cursor never leaves the asset. */
  predicate Valid(m: Marker) {
    0 <= m.pos <= |m.data|
  }

  /** The zero-initialised marker before any track has been selected:
      start == end == NULL, so the range is empty. */
  const Unset: Marker := Marker([], 0)

  /** What one call hands back: the AEL_IO_DONE sentinel, or a byte count
      together with the bytes copied into the caller's buffer. */
  datatype Reply = Done | Chunk(bytes: Bytes)

  datatype ReadStep = ReadStep(reply: Reply, marker: Marker)

  function Min(a: int, b: int): int {
    if a <= b then a else b
  }

  function Max(a: int, b: int): int {
    if a >= b then a else b
  }

  /** One call of the read callback asking for at most `len` bytes. */
  function Read(m: Marker, len: int): (r: ReadStep)
    requires Valid(m)
    requires 0 <= len
    ensures Valid(r.marker)
    ensures r.marker.data == m.data
    ensures r.reply.Done? <==> m.pos == |m.data|
    ensures r.reply.Done? ==> r.marker == m
    ensures r.reply.Chunk? ==> |r.reply.bytes| == Min(len, |m.data| - m.pos)
    ensures r.reply.Chunk? ==> r.marker.pos == m.pos + |r.reply.bytes|
    ensures r.reply.Chunk? ==>
      m.pos + |r.reply.bytes| <= |m.data| && r.reply.bytes == m.data[m.pos..m.pos + |r.reply.bytes|]
  {
    var readSize := |m.data| - m.pos;
    if readSize == 0 then
      ReadStep(Done, m)
    else
      var n := if len < readSize then len else readSize;
      ReadStep(Chunk(m.data[m.pos..m.pos + n]), m.(pos := m.pos + n))
  }

  /** The bytes a reply delivers: none for the sentinel. */
  function Payload(reply: Reply): Bytes {
    match reply
    case Done => []
    case Chunk(b) => b
  }

  /** Everything a sequence of replies delivered, in order. */
  function Delivered(replies: seq<Reply>): Bytes {
    if replies == [] then [] else Payload(replies[0]) + Delivered(replies[1..])
  }

  predicate NonNegative(lens: seq<int>) {
    forall i :: 0 <= i < |lens| ==> 0 <= lens[i]
  }

  predicate Positive(lens: seq<int>) {
    forall i :: 0 <= i < |lens| ==> 0 < lens[i]
  }

  function Sum(lens: seq<int>): int {
    if lens == [] then 0 else lens[0] + Sum(lens[1..])
  }

  /** The replies of successive calls with the requested lengths `lens`,
      and the marker after the last of them. */
  datatype Drained = Drained(replies: seq<Reply>, marker: Marker)

  function Drain(m: Marker, lens: seq<int>): (r: Drained)
    requires Valid(m) && NonNegative(lens)
    ensures |r.replies| == |lens|
    ensures Valid(r.marker) && r.marker.data == m.data
    ensures m.pos <= r.marker.pos
    decreases |lens|
  {
    if lens == [] then
      Drained([], m)
    else
      var s := Read(m, lens[0]);
      var rest := Drain(s.marker, lens[1..]);
      Drained([s.reply] + rest.replies, rest.marker)
  }

  lemma {:induction false} SumNonNegative(lens: seq<int>)
    requires NonNegative(lens)
    ensures 0 <= Sum(lens)
    decreases |lens|
  {
    if lens != [] {
      SumNonNegative(lens[1..]);
    }
  }

  lemma {:induction false} SumOfPositive(lens: seq<int>)
    requires Positive(lens)
    ensures |lens| <= Sum(lens)
    decreases |lens|
  {
    if lens != [] {
      SumOfPositive(lens[1..]);
    }
  }

  lemma DeliveredCons(reply: Reply, rest: seq<Reply>)
    ensures Delivered([reply] + rest) == Payload(reply) + Delivered(rest)
  {
    assert ([reply] + rest)[1..] == rest;
  }

  /** The cursor ends where the requested lengths take it, capped at the
      end of the asset. */
  lemma {:induction false} DrainPosition(m: Marker, lens: seq<int>)
    requires Valid(m) && NonNegative(lens)
    ensures Drain(m, lens).marker.pos == Min(|m.data|, m.pos + Sum(lens))
    decreases |lens|
  {
    if lens != [] {
      var s := Read(m, lens[0]);
      assert Drain(m, lens).marker == Drain(s.marker, lens[1..]).marker;
      DrainPosition(s.marker, lens[1..]);
      SumNonNegative(lens[1..]);
    }
  }

  /** Successive reads hand out the asset contiguously from the cursor to
      wherever the cursor ends. */
  lemma {:induction false} DrainContent(m: Marker, lens: seq<int>)
    requires Valid(m) && NonNegative(lens)
    ensures Delivered(Drain(m, lens).replies) == m.data[m.pos..Drain(m, lens).marker.pos]
    decreases |lens|
  {
    if lens != [] {
      var s := Read(m, lens[0]);
      var rest := Drain(s.marker, lens[1..]);
      var r := Drain(m, lens);
      assert r.replies == [s.reply] + rest.replies && r.marker == rest.marker;
      DrainContent(s.marker, lens[1..]);
      ReadPayload(m, lens[0]);
      DeliveredCons(s.reply, rest.replies);
      SliceConcat(m.data, m.pos, s.marker.pos, rest.marker.pos);
    }
  }

  /** What a read delivers is the asset between the old and new cursor. */
  lemma ReadPayload(m: Marker, len: int)
    requires Valid(m) && 0 <= len
    ensures Payload(Read(m, len).reply) == m.data[m.pos..Read(m, len).marker.pos]
  {
  }

  lemma SliceConcat(d: Bytes, i: int, j: int, k: int)
    requires 0 <= i <= j <= k <= |d|
    ensures d[i..k] == d[i..j] + d[j..k]
  {
  }

  /** Both halves together. */
  lemma DrainDelivers(m: Marker, lens: seq<int>)
    requires Valid(m) && NonNegative(lens)
    ensures Drain(m, lens).marker.pos == Min(|m.data|, m.pos + Sum(lens))
    ensures Delivered(Drain(m, lens).replies) == m.data[m.pos..Drain(m, lens).marker.pos]
  {
    DrainPosition(m, lens);
    DrainContent(m, lens);
  }

  /** Once the cursor is at the end, every further call returns the
      sentinel again and leaves the marker as it is. */
  lemma {:induction false} DoneRepeats(m: Marker, lens: seq<int>)
    requires Valid(m) && NonNegative(lens)
    requires m.pos == |m.data|
    ensures Drain(m, lens).marker == m
    ensures forall i :: 0 <= i < |lens| ==> Drain(m, lens).replies[i] == Done
    decreases |lens|
  {
    if lens != [] {
      DoneRepeats(m, lens[1..]);
    }
  }

  /** The first `k` calls of a run are a run of their own, and call `k`
      starts from the marker they leave. */
  lemma {:induction false} DrainPrefix(m: Marker, lens: seq<int>, k: nat)
    requires Valid(m) && NonNegative(lens)
    requires k < |lens|
    ensures NonNegative(lens[..k])
    ensures Drain(m, lens).replies[..k] == Drain(m, lens[..k]).replies
    ensures Drain(m, lens).replies[k] == Read(Drain(m, lens[..k]).marker, lens[k]).reply
    decreases k
  {
    if k > 0 {
      var s := Read(m, lens[0]);
      DrainPrefix(s.marker, lens[1..], k - 1);
      assert lens[..k][1..] == lens[1..][..k - 1];
    }
  }

  /** A call returns the sentinel exactly when the calls before it have
      already delivered every byte from the starting cursor to the end. */
  lemma DoneExactlyAfterAll(m: Marker, lens: seq<int>, k: nat)
    requires Valid(m) && NonNegative(lens)
    requires k < |lens|
    ensures Drain(m, lens).replies[k].Done?
        <==> Delivered(Drain(m, lens).replies[..k]) == m.data[m.pos..]
  {
    DrainPrefix(m, lens, k);
    var pre := Drain(m, lens[..k]);
    DrainDelivers(m, lens[..k]);
    assert Delivered(pre.replies) == m.data[m.pos..pre.marker.pos];
  }

  lemma PositivePrefix(lens: seq<int>, k: nat)
    requires Positive(lens) && k <= |lens|
    ensures Positive(lens[..k]) && NonNegative(lens[..k]) && NonNegative(lens)
  {
  }

  /** Lengths adding up to at least what is left take the cursor to the end. */
  lemma ReachesEnd(m: Marker, lens: seq<int>)
    requires Valid(m) && NonNegative(lens)
    requires |m.data| - m.pos <= Sum(lens)
    ensures Drain(m, lens).marker.pos == |m.data|
    ensures Delivered(Drain(m, lens).replies) == m.data[m.pos..]
  {
    var r := Drain(m, lens);
    DrainPosition(m, lens);
    assert r.marker.pos == |m.data|;
    DrainContent(m, lens);
    assert Delivered(r.replies) == m.data[m.pos..|m.data|];
  }

  /** Round trip: from the start of an asset, more positive-length calls than
      the asset has bytes deliver exactly the asset, and the last of them
      returns the sentinel. */
  lemma WholeTrack(data: Bytes, lens: seq<int>)
    requires Positive(lens)
    requires |lens| > |data|
    ensures NonNegative(lens)
    ensures Delivered(Drain(Marker(data, 0), lens).replies) == data
    ensures Drain(Marker(data, 0), lens).replies[|lens| - 1] == Done
  {
    var m := Marker(data, 0);
    var k := |lens| - 1;
    PositivePrefix(lens, k);
    SumOfPositive(lens);
    ReachesEnd(m, lens);
    assert data[0..] == data;
    SumOfPositive(lens[..k]);
    ReachesEnd(m, lens[..k]);
    DrainPrefix(m, lens, k);
  }

  lemma {:induction false} DeliveredSnoc(replies: seq<Reply>, reply: Reply)
    ensures Delivered(replies + [reply]) == Delivered(replies) + Payload(reply)
    decreases |replies|
  {
    if replies == [] {
      assert [] + [reply] == [reply];
      assert [reply][1..] == [];
    } else {
      assert (replies + [reply])[1..] == replies[1..] + [reply];
      DeliveredSnoc(replies[1..], reply);
    }
  }

  /** `k` requests of `len` bytes each. */
  function Repeat(len: int, k: nat): (lens: seq<int>)
    ensures |lens| == k && forall i :: 0 <= i < k ==> lens[i] == len
    ensures 0 <= len ==> NonNegative(lens)
    decreases k
  {
    if k == 0 then [] else Repeat(len, k - 1) + [len]
  }

  /** One more call extends a run by exactly what `Read` returns from the
      marker the run left. */
  lemma {:induction false} DrainSnoc(m: Marker, lens: seq<int>, len: int)
    requires Valid(m) && NonNegative(lens) && 0 <= len
    ensures NonNegative(lens + [len])
    ensures Drain(m, lens + [len])
         == Drained(Drain(m, lens).replies + [Read(Drain(m, lens).marker, len).reply],
                    Read(Drain(m, lens).marker, len).marker)
    decreases |lens|
  {
    assert NonNegative(lens + [len]) by {
      forall i | 0 <= i < |lens + [len]|
        ensures 0 <= (lens + [len])[i]
      {
        if i < |lens| {
          assert (lens + [len])[i] == lens[i];
        }
      }
    }
    if lens == [] {
      assert [] + [len] == [len];
    } else {
      var s := Read(m, lens[0]);
      assert (lens + [len])[0] == lens[0];
      assert (lens + [len])[1..] == lens[1..] + [len];
      DrainSnoc(s.marker, lens[1..], len);
    }
  }

  /** One more fixed-size request extends the run by one `Read`. */
  lemma PullStep(data: Bytes, len: int, replies: seq<Reply>, m: Marker)
    requires Valid(m) && 0 <= len
    requires Drain(Marker(data, 0), Repeat(len, |replies|)) == Drained(replies, m)
    ensures Drain(Marker(data, 0), Repeat(len, |replies| + 1))
         == Drained(replies + [Read(m, len).reply], Read(m, len).marker)
  {
    assert Repeat(len, |replies| + 1) == Repeat(len, |replies|) + [len];
    DrainSnoc(Marker(data, 0), Repeat(len, |replies|), len);
  }

  /** The reading side of the callback: from the start of an asset, call
      with at most `len` bytes until the sentinel comes back. Every call but
      the last hands over a non-empty chunk of at most `len` bytes, the last
      returns the sentinel, and together they deliver exactly the asset. The
      replies are exactly those of successive `Read` calls of `len` bytes. */
  method PullWhole(data: Bytes, len: int) returns (replies: seq<Reply>)
    requires 0 < len
    ensures 0 < |replies| && replies[|replies| - 1] == Done
    ensures forall i :: 0 <= i < |replies| - 1 ==> replies[i].Chunk? && 0 < |replies[i].bytes| <= len
    ensures Delivered(replies) == data
    ensures replies == Drain(Marker(data, 0), Repeat(len, |replies|)).replies
  {
    var m := Marker(data, 0);
    replies := [];
    var s := Read(m, len);
    while s.reply.Chunk?
      invariant Valid(m) && m.data == data
      invariant s == Read(m, len)
      invariant Drain(Marker(data, 0), Repeat(len, |replies|)) == Drained(replies, m)
      invariant Delivered(replies) == data[..m.pos]
      invariant forall i :: 0 <= i < |replies| ==> replies[i].Chunk? && 0 < |replies[i].bytes| <= len
      decreases |data| - m.pos
    {
      DeliveredSnoc(replies, s.reply);
      PullStep(data, len, replies, m);
      assert data[..s.marker.pos] == data[..m.pos] + data[m.pos..s.marker.pos];
      replies := replies + [s.reply];
      m := s.marker;
      s := Read(m, len);
    }
    DeliveredSnoc(replies, s.reply);
    PullStep(data, len, replies, m);
    assert data[..m.pos] == data;
    replies := replies + [s.reply];
  }
}
