/**
 * The layout of the decoded map sequence: `[width, height, armies..., terrain...]`
 * with one army count and one terrain code per tile.
 */
module Layout {
  import opened Wrappers
  import Diff

  datatype Map = Map(width: nat, height: nat, armies: seq<int>, terrain: seq<int>)

  /** One army count and one terrain code for each of the `width * height` tiles. */
  predicate Complete(m: Map)
  {
    |m.armies| == m.width * m.height && |m.terrain| == m.width * m.height
  }

  /**
   * main.js slicing of the decoded map: width and height first, then `size`
   * army counts, then `size` terrain codes, each cut short at the end of the
   * sequence as `slice` does. A sequence without a non-negative width and
   * height has no layout.
   */
  function Unpack(s: seq<int>): (r: Option<Map>)
    ensures r.None? <==> |s| < 2 || s[0] < 0 || s[1] < 0
    ensures r.Some? ==> r.value.width == s[0] && r.value.height == s[1]
    ensures r.Some? ==> var size := s[0] * s[1];
      r.value.armies == Diff.Slice(s, 2, size) && r.value.terrain == Diff.Slice(s, 2 + size, size)
  {
    if |s| < 2 || s[0] < 0 || s[1] < 0 then None
    else
      var size := s[0] * s[1];
      Some(Map(s[0], s[1], Diff.Slice(s, 2, size), Diff.Slice(s, 2 + size, size)))
  }

  /** The flat sequence a map is sent as. */
  function Pack(m: Map): seq<int>
  {
    [m.width, m.height] + m.armies + m.terrain
  }

  /** A sequence of exactly `2 + 2 * width * height` entries unpacks to a complete map. */
  lemma UnpackComplete(s: seq<int>)
    requires |s| >= 2 && s[0] >= 0 && s[1] >= 0 && |s| == 2 + 2 * (s[0] * s[1])
    ensures Unpack(s).Some? && Complete(Unpack(s).value)
  {
  }

  /** A shorter sequence leaves some tile without a terrain code. */
  lemma UnpackTruncated(s: seq<int>)
    requires |s| >= 2 && s[0] >= 0 && s[1] >= 0 && |s| < 2 + 2 * (s[0] * s[1])
    ensures Unpack(s).Some? && !Complete(Unpack(s).value)
  {
  }

  /** Round trip: unpacking a packed complete map gives it back. */
  lemma UnpackPack(m: Map)
    requires Complete(m)
    ensures Unpack(Pack(m)) == Some(m)
  {
    var s := Pack(m);
    var size := m.width * m.height;
    assert s[2..2 + size] == m.armies;
    assert s[2 + size..2 + 2 * size] == m.terrain;
  }

  /** Round trip the other way: a complete sequence is the packing of its layout. */
  lemma PackUnpack(s: seq<int>)
    requires Unpack(s).Some? && Complete(Unpack(s).value) && |s| == 2 + 2 * (s[0] * s[1])
    ensures Pack(Unpack(s).value) == s
  {
    var size := s[0] * s[1];
    assert s == s[..2] + s[2..2 + size] + s[2 + size..];
  }
}
