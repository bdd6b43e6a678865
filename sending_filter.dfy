/**
 * `Array.prototype.filter` driven by a callback that, for each element,
 * either sends one event (and drops the element) or keeps the element.
 * `Sent` is the sequence of events the callback sends, in visiting order;
 * `Kept` is the array `filter` returns.  A callback result `Some(e)` means
 * "send e and return false", `None` means "return true".
 */
module SendingFilter {
  import opened Wrappers

  function Sent<T, E>(xs: seq<T>, callback: T -> Option<E>): (r: seq<E>)
    ensures |r| <= |xs|
  {
    if xs == [] then []
    else
      var rest := Sent(xs[1..], callback);
      match callback(xs[0])
      case Some(e) => [e] + rest
      case None => rest
  }

  function Kept<T, E>(xs: seq<T>, callback: T -> Option<E>): (r: seq<T>)
    ensures |r| <= |xs|
    ensures forall x | x in r :: x in xs && callback(x).None?
  {
    if xs == [] then []
    else
      var rest := Kept(xs[1..], callback);
      assert forall x | x in xs[1..] :: x in xs;
      if callback(xs[0]).None? then [xs[0]] + rest else rest
  }

  /** Every element either sends one event or is kept: never both, never neither. */
  lemma {:induction false} SentKeptCount<T, E>(xs: seq<T>, callback: T -> Option<E>)
    ensures |Sent(xs, callback)| + |Kept(xs, callback)| == |xs|
  {
    if xs != [] {
      SentKeptCount(xs[1..], callback);
    }
  }

  /** Both outputs follow the input order: filtering a concatenation concatenates. */
  lemma {:induction false} FilterAppend<T, E>(a: seq<T>, b: seq<T>, callback: T -> Option<E>)
    ensures Sent(a + b, callback) == Sent(a, callback) + Sent(b, callback)
    ensures Kept(a + b, callback) == Kept(a, callback) + Kept(b, callback)
  {
    if a != [] {
      assert (a + b)[1..] == a[1..] + b;
      FilterAppend(a[1..], b, callback);
    } else {
      assert a + b == b;
    }
  }

  /** Filtering one more element appends its event or the element itself. */
  lemma FilterSnoc<T, E>(xs: seq<T>, x: T, callback: T -> Option<E>)
    ensures Sent(xs + [x], callback)
         == Sent(xs, callback) + (if callback(x).Some? then [callback(x).value] else [])
    ensures Kept(xs + [x], callback)
         == Kept(xs, callback) + (if callback(x).None? then [x] else [])
  {
    FilterAppend(xs, [x], callback);
  }

  /** An element is kept exactly when it occurs in the input and the callback sends nothing for it. */
  lemma {:induction false} KeptExactly<T, E>(xs: seq<T>, callback: T -> Option<E>)
    ensures forall x :: x in Kept(xs, callback) <==> x in xs && callback(x).None?
  {
    if xs != [] {
      KeptExactly(xs[1..], callback);
      assert forall x :: x in xs <==> x == xs[0] || x in xs[1..];
    }
  }

  /** An event is sent exactly when the callback produces it for some element of the input. */
  lemma {:induction false} SentExactly<T, E>(xs: seq<T>, callback: T -> Option<E>)
    ensures forall e :: e in Sent(xs, callback) <==> exists x | x in xs :: callback(x) == Some(e)
  {
    if xs != [] {
      SentExactly(xs[1..], callback);
      assert forall x :: x in xs <==> x == xs[0] || x in xs[1..];
    }
  }

  /**
   * The event of the element at index i is sent right after the events of
   * the elements before it: events come out in the order of the input.
   */
  lemma SentAt<T, E>(xs: seq<T>, i: nat, callback: T -> Option<E>)
    requires i < |xs| && callback(xs[i]).Some?
    ensures |Sent(xs[..i], callback)| < |Sent(xs, callback)|
    ensures Sent(xs, callback)[|Sent(xs[..i], callback)|] == callback(xs[i]).value
  {
    assert xs == xs[..i] + xs[i..];
    FilterAppend(xs[..i], xs[i..], callback);
    assert xs[i..][0] == xs[i];
  }

  /** A kept element sits right after the kept elements before it: the residual keeps input order. */
  lemma KeptAt<T, E>(xs: seq<T>, i: nat, callback: T -> Option<E>)
    requires i < |xs| && callback(xs[i]).None?
    ensures |Kept(xs[..i], callback)| < |Kept(xs, callback)|
    ensures Kept(xs, callback)[|Kept(xs[..i], callback)|] == xs[i]
  {
    assert xs == xs[..i] + xs[i..];
    FilterAppend(xs[..i], xs[i..], callback);
    assert xs[i..][0] == xs[i];
  }

  /** Filtering the residual again sends nothing and keeps everything. */
  lemma {:induction false} FilterIdempotent<T, E>(xs: seq<T>, callback: T -> Option<E>)
    ensures Sent(Kept(xs, callback), callback) == []
    ensures Kept(Kept(xs, callback), callback) == Kept(xs, callback)
  {
    if xs != [] {
      FilterIdempotent(xs[1..], callback);
      var rest := Kept(xs[1..], callback);
      if callback(xs[0]).None? {
        assert ([xs[0]] + rest)[1..] == rest;
      }
    }
  }
}
