/** VectorisedView of pkg/buffer/view.go: a sequence of bytes held in several slices, against the
  * flat sequence they stand for.
  *
  * A VectorisedView owns a part of an array of slices, which TrimFront and CapLength write in
  * place. The bytes behind a slice are never written, so a slice is a sequence.
  */
module Views {
  import opened Packets

  lemma FirstView(views: seq<seq<byte>>)
    requires |views| > 0
    ensures Flat(views) == views[0] + Flat(views[1..])
  {
  }

  lemma NoViews(views: seq<seq<byte>>)
    requires |views| == 0
    ensures Flat(views) == []
  {
  }

  /** Capping slice i and dropping those behind it keeps a prefix. */
  lemma Capped(views: seq<seq<byte>>, i: nat, left: nat)
    requires i < |views| && left <= |views[i]|
    ensures Flat(views[..i] + [views[i][..left]]) == Flat(views[..i]) + views[i][..left]
    ensures left == 0 ==> Flat(views[..i]) == Flat(views[..i]) + views[i][..left]
  {
    FlatAppend(views[..i], views[i][..left]);
  }

  class VectorisedView {
    var slices: array<seq<byte>>   // the array under vv.views
    var first: nat                 // vv.views is slices[first..end]
    var end: nat
    var size: int

    predicate Valid()
      reads this, slices
    {
      first <= end <= slices.Length && size == |Flat(slices[first..end])|
    }

    function Contents(): seq<byte>
      requires first <= end <= slices.Length
      reads this, slices
    {
      Flat(slices[first..end])
    }

    constructor (size: int, slices: array<seq<byte>>, first: nat, end: nat)
      requires first <= end <= slices.Length && size == |Flat(slices[first..end])|
      ensures Valid() && Contents() == Flat(slices[first..end]) && this.slices == slices
    {
      this.size, this.slices, this.first, this.end := size, slices, first, end;
    }

    method RemoveFirst()
      requires Valid()
      modifies this
      ensures Valid() && slices == old(slices) && end == old(end)
      ensures first == if old(first == end) then old(first) else old(first) + 1
      ensures old(Contents()) == (if old(first == end) then [] else slices[old(first)]) + Contents()
    {
      if first == end {
        return;
      }
      assert slices[first..end][1..] == slices[first + 1..end];
      size := size - |slices[first]|;
      first := first + 1;
    }

    /** The first count bytes go; all of them, if there are no more. */
    method TrimFront(count: int)
      requires Valid()
      modifies this, slices
      ensures Valid() && slices == old(slices)
      ensures Contents() == if count <= 0 then old(Contents()) else Drop(old(Contents()), count)
    {
      hide Flat;
      var left := count;
      ghost var all := Contents();
      while left > 0 && first < end
        invariant Valid() && slices == old(slices) && (count <= 0 ==> left == count && Contents() == all)
        invariant count > 0 ==>
          0 <= left <= count && |all| == count - left + |Contents()| && Contents() == all[count - left..]
        decreases end - first
      {
        ghost var was := slices[first..end];
        FirstView(was);
        if left < |slices[first]| {
          size := size - left;
          slices[first] := slices[first][left..];
          FirstView(slices[first..end]);
          assert slices[first..end][1..] == was[1..];
          assert Contents() == all[count - left..][left..];
          return;
        }
        left := left - |slices[first]|;
        RemoveFirst();
      }
      if count > 0 && left > 0 {
        NoViews(slices[first..end]);
      }
    }

    /** Slice i is the last to stay, with its first `left` bytes; it goes too if that is none. */
    method EndAt(i: nat, left: nat)
      requires first <= i < end <= slices.Length && left <= |slices[i]|
      modifies this`end, slices
      ensures first <= end <= slices.Length && slices[first..i] == old(slices[first..i])
      ensures slices[first..end] == old(slices[first..i]) + if left == 0 then [] else [old(slices[i])[..left]]
    {
      if left == 0 {
        end := i;
      } else {
        slices[i] := slices[i][..left];
        end := i + 1;
      }
    }

    /** Only the first `length` bytes stay. */
    method CapLength(length: int)
      requires Valid()
      modifies this, slices
      ensures Valid() && slices == old(slices)
      ensures Contents() == if |old(Contents())| < length then old(Contents())
        else old(Contents())[..if length < 0 then 0 else length]
    {
      hide Flat;
      var left := if length < 0 then 0 else length;
      if size < left {
        return;
      }
      ghost var all, whole := Contents(), left;
      ghost var was := slices[first..end];
      size := left;
      var i := first;
      assert was[..0] == [] && was[0..] == was;
      NoViews(was[..0]);
      assert [] + Flat(was[0..]) == all;
      while i < end
        invariant first <= i <= end <= slices.Length && slices[first..end] == was && size == whole
        invariant slices == old(slices) && first == old(first) && end == old(end)
        invariant all == Flat(was[..i - first]) + Flat(was[i - first..])
        invariant whole == |Flat(was[..i - first])| + left && 0 <= left <= |Flat(was[i - first..])|
      {
        var v, k := slices[i], i - first;
        FirstView(was[k..]);
        assert was[k..][0] == v && was[k..][1..] == was[k + 1..];
        if |v| >= left {
          Capped(was, k, left);
          assert slices[first..i] == slices[first..end][..k];
          assert all[..whole] == Flat(was[..k]) + v[..left];
          EndAt(i, left);
          if left == 0 {
            assert slices[first..end] == was[..k];
          }
          return;
        }
        left := left - |v|;
        FlatAppend(was[..k], v);
        assert was[..k + 1] == was[..k] + [v];
        assert Flat(was[..k]) + (v + Flat(was[k + 1..])) == (Flat(was[..k]) + v) + Flat(was[k + 1..]);
        i := i + 1;
      }
      assert was[i - first..] == [] && was[..i - first] == was;
      NoViews(was[i - first..]);
      assert all[..whole] == all;
    }

    /** The copy has an array of slices of its own, in buffer if that has the room: trimming the one
      * leaves the other alone. */
    method Clone(buffer: array<seq<byte>>) returns (c: VectorisedView)
      requires Valid() && buffer != slices
      modifies buffer
      ensures fresh(c) && c.Valid() && c.Contents() == old(Contents()) && Valid() && Contents() == old(Contents())
      ensures c.slices != slices && (c.slices == buffer || fresh(c.slices))
    {
      var n := end - first;
      var to := buffer;
      if buffer.Length < n {
        to := new seq<byte>[n](_ => []);
      }
      for i := 0 to n
        invariant to.Length >= n && to != slices && (to == buffer || fresh(to))
        invariant to[..i] == slices[first..first + i] && slices[first..end] == old(slices[first..end])
      {
        to[i] := slices[first + i];
      }
      assert to[0..n] == slices[first..end];
      c := new VectorisedView(size, to, 0, n);
    }

    method ToView() returns (u: seq<byte>)
      requires Valid()
      ensures u == Contents()
    {
      u := [];
      ghost var was := slices[first..end];
      assert was[..0] == [];
      for i := first to end
        invariant u == Flat(was[..i - first])
      {
        FlatAppend(was[..i - first], slices[i]);
        assert was[..i - first + 1] == was[..i - first] + [slices[i]];
        u := u + slices[i];
      }
      assert was[..end - first] == was;
    }
  }

  /** How sendData cuts a segment that is too long: the clone loses its front and the segment its
    * end, each in its own array, and together they still hold what the segment held. */
  method Split(data: VectorisedView, available: nat, buffer: array<seq<byte>>) returns (rest: VectorisedView)
    requires data.Valid() && available <= data.size && buffer != data.slices
    modifies data, data.slices, buffer
    ensures data.Valid() && rest.Valid() && fresh(rest) && rest.slices != data.slices
    ensures data.Contents() + rest.Contents() == old(data.Contents()) && data.size == available
  {
    rest := data.Clone(buffer);
    rest.TrimFront(available);
    data.CapLength(available);
  }
}
