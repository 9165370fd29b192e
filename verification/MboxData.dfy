/** How load_msg of sync/mbox.c cuts a message into allocations and store_msg puts it together. */
module MboxData {
  import opened Common

  /** 512 bytes less the header of a message. */
  const MAX_MSG_DATALEN: nat := 480

  function Part(len: nat): (r: nat)
    ensures r <= len && r <= MAX_MSG_DATALEN && (r < len ==> r == MAX_MSG_DATALEN)
  {
    if len > MAX_MSG_DATALEN then MAX_MSG_DATALEN else len
  }

  /** The allocations of a message of these bytes. */
  ghost function Segments<T>(src: seq<T>): (r: seq<seq<T>>)
    ensures |r| >= 1
  {
    if |src| <= MAX_MSG_DATALEN then [src] else [src[..MAX_MSG_DATALEN]] + Segments(src[MAX_MSG_DATALEN..])
  }

  ghost function Joined<T>(segs: seq<seq<T>>): seq<T> {
    if segs == [] then [] else segs[0] + Joined(segs[1..])
  }

  /** The segments are the bytes in order, as few as can be: all but the last are full, and no message is
      without one. */
  lemma {:induction false} SegmentsAre<T>(src: seq<T>)
    ensures var segs := Segments(src);
            && Joined(segs) == src
            && |segs| == (if src == [] then 1 else (|src| + MAX_MSG_DATALEN - 1) / MAX_MSG_DATALEN)
            && (forall i :: 0 <= i < |segs| - 1 ==> |segs[i]| == MAX_MSG_DATALEN)
            && |segs[|segs| - 1]| <= MAX_MSG_DATALEN
  {
    var segs := Segments(src);
    if |src| <= MAX_MSG_DATALEN {
      assert segs[1..] == [];
    } else {
      var rest := src[MAX_MSG_DATALEN..];
      SegmentsAre(rest);
      assert segs[1..] == Segments(rest) && src == src[..MAX_MSG_DATALEN] + rest;
      assert forall i :: 1 <= i < |segs| ==> segs[i] == Segments(rest)[i - 1];
    }
  }

  /** load_msg, given how many allocations succeed: all of the message in segments, or nothing. */
  method LoadMsg<T>(data: seq<T>, allocs: nat) returns (msg: Option<seq<seq<T>>>)
    ensures msg == if |Segments(data)| <= allocs then Some(Segments(data)) else None
  {
    if allocs == 0 {
      return None;
    }
    var alen := Part(|data|);
    var segs := [data[..alen]];
    var src := data[alen..];
    SegmentsFirst(data);
    while src != []
      invariant |segs| <= allocs && Segments(data) == if src == [] then segs else segs + Segments(src)
      decreases |src|
    {
      if |segs| == allocs {
        return None;
      }
      alen := Part(|src|);
      SegmentsFirst(src);
      assert segs + [src[..alen]] + Segments(src[alen..]) == segs + ([src[..alen]] + Segments(src[alen..]));
      segs := segs + [src[..alen]];
      src := src[alen..];
    }
    return Some(segs);
  }

  lemma {:induction false} SegmentsFirst<T>(src: seq<T>)
    ensures var n := Part(|src|); Segments(src) == if n == |src| then [src[..n]] else [src[..n]] + Segments(src[n..])
  {
    assert src[..|src|] == src;
  }

  /** store_msg gives back exactly the bytes that were loaded, and never runs out of segments. */
  method StoreMsg<T>(segs: seq<seq<T>>, bytes: nat, ghost data: seq<T>) returns (dst: seq<T>)
    requires segs == Segments(data) && bytes == |data|
    ensures dst == data
  {
    SegmentsFirst(data);
    var len: nat := bytes;
    dst := segs[0][..Part(len)];
    len := len - Part(len);
    var i := 1;
    while len > 0
      invariant len == |data| - |dst| && dst <= data && 1 <= i <= |segs|
      invariant segs[i..] == if len == 0 then [] else Segments(data[|dst|..])
      decreases len
    {
      ghost var rest := data[|dst|..];
      SegmentsFirst(rest);
      assert i < |segs|;
      assert segs[i] == segs[i..][0] == rest[..Part(len)];
      assert segs[i + 1..] == segs[i..][1..];
      assert rest[Part(len)..] == data[|dst| + Part(len)..];
      dst := dst + segs[i][..Part(len)];
      len := len - Part(len);
      i := i + 1;
    }
  }
}
