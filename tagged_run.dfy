/** Tagged runs: the length-less lists inside route and strip elements. Each item is a u16
    tag followed by a value; the decoder peeks at the next u16 and takes another item for as
    long as it is the tag, so a run ends at the first word that is not the tag. Routes use
    the tag 0x14 with u32 anchor ids, strips the tag 0x029c with u64 route ids. */
module TaggedRuns {
  import opened Wire
  import opened FileReader
  import opened FileWriter

  /** The result of a parse with `prefix` put in front of the list it produced. */
  function Prepend<T>(prefix: seq<T>, r: Parse<seq<T>>): Parse<seq<T>> {
    match r
    case Done(v, q) => Done(prefix + v, q)
    case Failed(e) => Failed(e)
  }

  lemma PrependNothing<T>(r: Parse<seq<T>>)
    ensures Prepend([], r) == r
  {
    if r.Done? {
      assert [] + r.value == r.value;
    }
  }

  lemma PrependTwice<T>(xs: seq<T>, ys: seq<T>, r: Parse<seq<T>>)
    ensures Prepend(xs, Prepend(ys, r)) == Prepend(xs + ys, r)
  {
    if r.Done? {
      assert xs + (ys + r.value) == xs + ys + r.value;
    }
  }

  /** The bytes n tagged values of width w take: a u16 tag and the value each. */
  function RunLength(w: Width, n: nat): nat {
    match w
    case W16 => 4 * n
    case W32 => 6 * n
    case W64 => 10 * n
  }

  lemma RunLengths(n: nat)
    ensures RunLength(W16, n) == 4 * n && RunLength(W32, n) == 6 * n && RunLength(W64, n) == 10 * n
  {
  }

  lemma RunLengthStep(w: Width, n: nat)
    ensures RunLength(w, n + 1) == 2 + w.Size() + RunLength(w, n)
  {
  }

  /** The peek loop: while the next u16 is `tag`, consume it and read one value of width w. */
  function RunAt(data: seq<Byte>, p: nat, tag: nat, w: Width): (r: Parse<seq<nat>>)
    ensures r.Done? ==> p + RunLength(w, |r.value|) == r.next <= |data|
    ensures r.Done? ==> AllFit(w, r.value)
    decreases |data| - p
  {
    var (next, _) :- PeekAt(data, p, W16);
    if next != tag then Done([], p)
    else
      // The `expect` of the tag just peeked always succeeds and consumes its 2 bytes.
      var (v, q) :- ReadAt(data, p + 2, w);
      var (rest, q') :- RunAt(data, q, tag, w);
      Done([v] + rest, q')
  }

  /** One turn of the loop: a tagged value, then the rest of the loop. */
  lemma RunStep(data: seq<Byte>, p: nat, tag: nat, w: Width)
    requires PeekAt(data, p, W16).Done? && PeekAt(data, p, W16).value == tag
    requires ReadAt(data, p + 2, w).Done?
    ensures RunAt(data, p, tag, w) == Prepend([ReadAt(data, p + 2, w).value], RunAt(data, p + 2 + w.Size(), tag, w))
  {
  }

  /** The items as the encoders write them: (tag, value) per item, in order. */
  function RunBytes(tag: nat, w: Width, vs: seq<nat>): (s: seq<Byte>)
    ensures |s| == RunLength(w, |vs|)
  {
    if vs == [] then []
    else Encode(W16, tag) + Encode(w, vs[0]) + RunBytes(tag, w, vs[1..])
  }

  lemma {:induction false} RunBytesAppend(tag: nat, w: Width, xs: seq<nat>, ys: seq<nat>)
    ensures RunBytes(tag, w, xs + ys) == RunBytes(tag, w, xs) + RunBytes(tag, w, ys)
  {
    if xs == [] {
      assert xs + ys == ys;
    } else {
      assert (xs + ys)[0] == xs[0];
      assert (xs + ys)[1..] == xs[1..] + ys;
      RunBytesAppend(tag, w, xs[1..], ys);
    }
  }

  /** The loop reads back every written item and stops at the first word that is not the
      tag, whatever that word is, without consuming it. */
  lemma {:induction false} RunStop(data: seq<Byte>, p: nat, tag: U16, w: Width, vs: seq<nat>, stop: U16)
    requires AllFit(w, vs)
    requires At(data, p, RunBytes(tag, w, vs))
    requires At(data, p + RunLength(w, |vs|), Encode(W16, stop)) && stop != tag
    ensures RunAt(data, p, tag, w) == Done(vs, p + RunLength(w, |vs|))
    decreases |vs|
  {
    if vs == [] {
      ReadAtEncoded(data, p, W16, stop);
    } else {
      var q := p + 2 + w.Size();
      RunItem(data, p, tag, w, vs[0], RunBytes(tag, w, vs[1..]));
      AllFitTail(w, vs);
      RunStop(data, q, tag, w, vs[1..], stop);
      RunLengthStep(w, |vs| - 1);
      assert [vs[0]] + vs[1..] == vs;
    }
  }

  /** An item written at p, whatever follows it, is taken by one turn of the loop. */
  lemma RunItem(data: seq<Byte>, p: nat, tag: U16, w: Width, v: nat, rest: seq<Byte>)
    requires v < w.Bound()
    requires At(data, p, Encode(W16, tag) + Encode(w, v) + rest)
    ensures At(data, p + 2 + w.Size(), rest)
    ensures RunAt(data, p, tag, w) == Prepend([v], RunAt(data, p + 2 + w.Size(), tag, w))
  {
    AtConcat(data, p, Encode(W16, tag) + Encode(w, v), rest);
    AtConcat(data, p, Encode(W16, tag), Encode(w, v));
    ReadAtEncoded(data, p, W16, tag);
    ReadAtEncoded(data, p + 2, w, v);
    RunStep(data, p, tag, w);
  }

  lemma AllFitTail(w: Width, vs: seq<nat>)
    requires AllFit(w, vs) && vs != []
    ensures AllFit(w, vs[1..])
  {
    forall i | 0 <= i < |vs[1..]| ensures vs[1..][i] < w.Bound() {
      assert vs[1..][i] == vs[i + 1];
    }
  }

  /** Conversely, whatever the loop accepts is a run of written items, and the word it
      stopped at is not the tag. */
  lemma {:induction false} RunDecoded(data: seq<Byte>, p: nat, tag: U16, w: Width)
    requires RunAt(data, p, tag, w).Done?
    ensures At(data, p, RunBytes(tag, w, RunAt(data, p, tag, w).value))
    ensures PeekAt(data, RunAt(data, p, tag, w).next, W16).Done?
    ensures PeekAt(data, RunAt(data, p, tag, w).next, W16).value != tag
    decreases |data| - p
  {
    if PeekAt(data, p, W16).value == tag {
      ReadAtEncoded(data, p, W16, tag);
      var v := ReadAt(data, p + 2, w).value;
      ReadAtEncoded(data, p + 2, w, v);
      RunDecoded(data, p + 2 + w.Size(), tag, w);
      var vs := RunAt(data, p, tag, w).value;
      assert vs[0] == v && vs[1..] == RunAt(data, p + 2 + w.Size(), tag, w).value;
      var item := Encode(W16, tag) + Encode(w, v);
      AtConcat(data, p, Encode(W16, tag), Encode(w, v));
      AtConcat(data, p, item, RunBytes(tag, w, vs[1..]));
    }
  }

  /** The tag just peeked is expected without fail, and a value missing after it fails the
      whole loop with the same error. */
  lemma RunTagPeeked(data: seq<Byte>, p: nat, tag: nat, w: Width)
    requires PeekAt(data, p, W16).Done? && PeekAt(data, p, W16).value == tag
    ensures ExpectAt(data, p, W16, tag) == Done((), p + 2)
    ensures ReadAt(data, p + 2, w).Failed? ==> RunAt(data, p, tag, w) == Failed(ReadAt(data, p + 2, w).error)
  {
  }

  /** The peek-driven loop at the reader's cursor. */
  method ReadRun(r: Reader, tag: nat, w: Width) returns (res: Parse<seq<nat>>)
    modifies r
    ensures res == RunAt(r.data, old(r.pos), tag, w)
    ensures r.pos == res.Cursor()
  {
    ghost var start := r.pos;
    var vs: seq<nat> := [];
    PrependNothing(RunAt(r.data, r.pos, tag, w));
    var next :- r.Peek(W16);
    while next.0 == tag
      invariant Prepend(vs, RunAt(r.data, r.pos, tag, w)) == RunAt(r.data, start, tag, w)
      invariant PeekAt(r.data, r.pos, W16) == Done(next.0, r.pos)
      decreases |r.data| - r.pos
    {
      ghost var here := r.pos;
      RunTagPeeked(r.data, here, tag, w);
      var _ := r.Expect(W16, tag);
      var v := r.Read(w);
      if v.Failed? {
        return Failed(v.error);
      }
      RunStep(r.data, here, tag, w);
      PrependTwice(vs, [v.value], RunAt(r.data, r.pos, tag, w));
      vs := vs + [v.value];
      next :- r.Peek(W16);
    }
    assert vs + [] == vs;
    res := Done(vs, r.pos);
  }

  /** The encoders' loop: one (tag, value) pair per item, in order. */
  method WriteRun(out: Writer, tag: U16, w: Width, vs: seq<nat>)
    requires out.Valid() && AllFit(w, vs)
    modifies out
    ensures out.Valid() && out.out == old(out.out) + RunBytes(tag, w, vs)
  {
    for i := 0 to |vs|
      invariant out.Valid() && out.out == old(out.out) + RunBytes(tag, w, vs[..i])
    {
      ghost var before := out.out;
      out.Write(W16, tag);
      out.Write(w, vs[i]);
      RunBytesAppend(tag, w, vs[..i], [vs[i]]);
      assert vs[..i + 1] == vs[..i] + [vs[i]];
      assert [vs[i]][1..] == [];
      assert RunBytes(tag, w, [vs[i]]) == Encode(W16, tag) + Encode(w, vs[i]);
      assert out.out == before + RunBytes(tag, w, [vs[i]]);
    }
    assert vs[..|vs|] == vs;
  }
}
