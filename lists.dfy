/** Counted lists on the wire. A packet that reads a count and then that
    many elements applies one element reader again and again, each read
    starting where the previous one stopped; writing a list writes each
    element's encoding in order. Both are stated once here for any element
    reader and encoder, and each packet's loops are instances. */
module Lists {
  import opened Wire

  /** `n` elements read in sequence from `pos`; None as soon as one fails. */
  function ReadListAt<T>(s: seq<byte>, pos: nat, n: nat, elem: (seq<byte>, nat) -> Option<(T, nat)>): (r: Option<(seq<T>, nat)>)
    ensures r.Some? ==> |r.value.0| == n
    ensures n == 0 ==> r == Some(([], pos))
    decreases n
  {
    if n == 0 then Some(([], pos))
    else
      match elem(s, pos)
      case None => None
      case Some((x, p)) =>
        match ReadListAt(s, p, n - 1, elem)
        case None => None
        case Some((xs, q)) => Some(([x] + xs, q))
  }

  /** The concatenated encodings of the elements, in order. */
  function EncodeList<T>(xs: seq<T>, enc: T --> seq<byte>): seq<byte>
    requires forall i :: 0 <= i < |xs| ==> enc.requires(xs[i])
  {
    if xs == [] then [] else enc(xs[0]) + EncodeList(xs[1..], enc)
  }

  /** An element reader that never moves backwards or past the end. */
  ghost predicate Bounded<T>(elem: (seq<byte>, nat) -> Option<(T, nat)>) {
    forall s: seq<byte>, p: nat :: elem(s, p).Some? ==> p <= elem(s, p).value.1 <= |s|
  }

  /** The element encoded as `x` reads back as `x`, wherever it sits. */
  ghost predicate ReadsBack<T>(elem: (seq<byte>, nat) -> Option<(T, nat)>, enc: T --> seq<byte>, x: T)
    requires enc.requires(x)
  {
    forall s: seq<byte>, p: nat :: Placed(s, p, enc(x)) ==> elem(s, p) == Some((x, After(p, enc(x))))
  }

  /** A list read with a bounded reader ends inside the buffer. */
  lemma {:induction false} ReadListBounded<T>(s: seq<byte>, pos: nat, n: nat, elem: (seq<byte>, nat) -> Option<(T, nat)>)
    requires Bounded(elem) && pos <= |s|
    ensures ReadListAt(s, pos, n, elem).Some? ==> pos <= ReadListAt(s, pos, n, elem).value.1 <= |s|
    decreases n
  {
    if n > 0 && elem(s, pos).Some? {
      ReadListBounded(s, elem(s, pos).value.1, n - 1, elem);
    }
  }

  /** Reading one more element extends the list by what the element reader
      finds where the list stopped: the loop that reads a list one element
      at a time computes ReadListAt. */
  lemma {:induction false} ReadListNext<T>(s: seq<byte>, pos: nat, n: nat, elem: (seq<byte>, nat) -> Option<(T, nat)>,
                                          xs: seq<T>, p: nat)
    requires ReadListAt(s, pos, n, elem) == Some((xs, p))
    ensures ReadListAt(s, pos, n + 1, elem)
      == match elem(s, p) case None => None case Some((x, q)) => Some((xs + [x], q))
    decreases n
  {
    if n > 0 {
      var (x0, p0) := elem(s, pos).value;
      var rest := ReadListAt(s, p0, n - 1, elem).value.0;
      assert xs == [x0] + rest;
      ReadListNext(s, p0, n - 1, elem, rest, p);
      match elem(s, p)
      case None =>
      case Some((x, q)) =>
        assert ReadListAt(s, p0, n, elem) == Some((rest + [x], q));
        assert [x0] + (rest + [x]) == xs + [x];
    } else {
      match elem(s, p)
      case None =>
      case Some((x, q)) =>
        assert ReadListAt(s, q, 0, elem) == Some(([], q));
        assert [x] + [] == xs + [x];
    }
  }

  /** Once an element fails, reading more elements fails too. */
  lemma {:induction false} ReadListFailureSticks<T>(s: seq<byte>, pos: nat, i: nat, n: nat, elem: (seq<byte>, nat) -> Option<(T, nat)>)
    requires i <= n && ReadListAt(s, pos, i, elem).None?
    ensures ReadListAt(s, pos, n, elem).None?
    decreases i
  {
    if elem(s, pos).Some? {
      ReadListFailureSticks(s, elem(s, pos).value.1, i - 1, n - 1, elem);
    }
  }

  /** One pass of a loop that reads `n` elements: the element found where
      the first `i` stop either extends them, or makes the whole read fail. */
  lemma ReadListStep<T>(s: seq<byte>, pos: nat, i: nat, n: nat, elem: (seq<byte>, nat) -> Option<(T, nat)>,
                        xs: seq<T>, p: nat)
    requires i < n && ReadListAt(s, pos, i, elem) == Some((xs, p))
    ensures elem(s, p).None? ==> ReadListAt(s, pos, n, elem).None?
    ensures elem(s, p).Some? ==> ReadListAt(s, pos, i + 1, elem) == Some((xs + [elem(s, p).value.0], elem(s, p).value.1))
  {
    ReadListNext(s, pos, i, elem, xs, p);
    if elem(s, p).None? {
      ReadListFailureSticks(s, pos, i + 1, n, elem);
    }
  }

  /** One pass of a loop that writes a list: after the first `i` elements,
      writing element `i` leaves the first `i + 1` written. */
  lemma EncodeListStep<T>(before: seq<byte>, xs: seq<T>, i: nat, enc: T --> seq<byte>)
    requires i < |xs| && forall k :: 0 <= k < |xs| ==> enc.requires(xs[k])
    ensures before + EncodeList(xs[..i + 1], enc) == before + EncodeList(xs[..i], enc) + enc(xs[i])
  {
    assert xs[..i + 1] == xs[..i] + [xs[i]];
    EncodeListSnoc(xs[..i], xs[i], enc);
  }

  /** Appending an element appends its encoding. */
  lemma {:induction false} EncodeListSnoc<T>(xs: seq<T>, x: T, enc: T --> seq<byte>)
    requires forall i :: 0 <= i < |xs| ==> enc.requires(xs[i])
    requires enc.requires(x)
    ensures EncodeList(xs + [x], enc) == EncodeList(xs, enc) + enc(x)
  {
    if xs == [] {
      assert [x][1..] == [];
    } else {
      assert (xs + [x])[1..] == xs[1..] + [x];
      EncodeListSnoc(xs[1..], x, enc);
      AppendAssoc(enc(xs[0]), EncodeList(xs[1..], enc), enc(x));
    }
  }

  /** Read-after-write for a list: when every element reads back, the list
      does, in order, and the reader stops right after the last encoding. */
  lemma {:induction false} ReadEncodeList<T>(s: seq<byte>, pos: nat, xs: seq<T>,
                                            elem: (seq<byte>, nat) -> Option<(T, nat)>, enc: T --> seq<byte>)
    requires forall i :: 0 <= i < |xs| ==> enc.requires(xs[i]) && ReadsBack(elem, enc, xs[i])
    requires Placed(s, pos, EncodeList(xs, enc))
    ensures ReadListAt(s, pos, |xs|, elem) == Some((xs, After(pos, EncodeList(xs, enc))))
    decreases |xs|
  {
    if xs != [] {
      var x, rest := xs[0], xs[1..];
      assert forall i :: 0 <= i < |rest| ==> rest[i] == xs[i + 1];
      PlacedSplit(s, pos, enc(x), EncodeList(rest, enc));
      var p := After(pos, enc(x));
      assert ReadsBack(elem, enc, x);
      assert elem(s, pos) == Some((x, p));
      ReadEncodeList(s, p, rest, elem, enc);
      assert [x] + rest == xs;
      assert After(p, EncodeList(rest, enc)) == After(pos, EncodeList(xs, enc));
    }
  }
}
