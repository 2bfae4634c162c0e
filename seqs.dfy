/** Small facts about sequence concatenation, stated on their own so that
    proofs about the model's folds can use them without unfolding the
    folds. */
module Seqs {
  import opened Wrappers

  /** The values `f` gives for the elements of `s`, in order, skipping the
      elements it gives none for. */
  function Present<A, B>(s: seq<A>, f: A -> Option<B>): seq<B>
  {
    if |s| == 0 then []
    else Present(s[..|s| - 1], f) + (if f(s[|s| - 1]).Some? then [f(s[|s| - 1]).value] else [])
  }

  /** A value is kept exactly when `f` gives it for some element. */
  lemma {:induction false} PresentMembers<A, B>(s: seq<A>, f: A -> Option<B>)
    ensures forall b :: b in Present(s, f) <==> exists i :: 0 <= i < |s| && f(s[i]) == Some(b)
  {
    if |s| > 0 {
      var init := s[..|s| - 1];
      var n := |s| - 1;
      PresentMembers(init, f);
      assert forall i :: 0 <= i < |init| ==> init[i] == s[i];
      var tail: seq<B> := if f(s[n]).Some? then [f(s[n]).value] else [];
      assert Present(s, f) == Present(init, f) + tail;
      forall b
        ensures b in Present(s, f) <==> exists i :: 0 <= i < |s| && f(s[i]) == Some(b)
      {
        if b in tail {
          assert f(s[n]) == Some(b);
        }
        if i :| 0 <= i < |s| && f(s[i]) == Some(b) {
          if i < n {
            assert f(init[i]) == Some(b);
          }
        }
      }
    }
  }


  /** `f` applied to every element of `s`, in order; the first error wins. */
  function MapAll<A, B, E>(s: seq<A>, f: A -> Result<B, E>): Result<seq<B>, E>
  {
    if |s| == 0 then Ok([])
    else match f(s[0])
      case Err(e) => Err(e)
      case Ok(b) =>
        match MapAll(s[1..], f)
        case Err(e) => Err(e)
        case Ok(bs) => Ok([b] + bs)
  }

  /** The mapping succeeds exactly when `f` succeeds on every element, and
      then holds `f`'s values in order. */
  lemma {:induction false} MapAllMeaning<A, B, E>(s: seq<A>, f: A -> Result<B, E>)
    ensures MapAll(s, f).Ok? <==> forall i :: 0 <= i < |s| ==> f(s[i]).Ok?
    ensures MapAll(s, f).Ok? ==> |MapAll(s, f).value| == |s|
    ensures MapAll(s, f).Ok? ==> forall i :: 0 <= i < |s| ==> MapAll(s, f).value[i] == f(s[i]).value
  {
    if |s| > 0 {
      MapAllMeaning(s[1..], f);
      assert forall i :: 1 <= i < |s| ==> s[1..][i - 1] == s[i];
    }
  }

  /** A non-empty `b` is its front and its last element. */
  lemma SplitLast<T>(a: seq<T>, b: seq<T>)
    requires |b| > 0
    ensures a + b == (a + b[..|b| - 1]) + [b[|b| - 1]]
    ensures b == b[..|b| - 1] + [b[|b| - 1]]
  {
  }

  /** One more element of `s` after the prefix `s[..j]`. */
  lemma PrefixSnoc<T>(a: seq<T>, s: seq<T>, j: nat)
    requires j < |s|
    ensures a + s[..j + 1] == (a + s[..j]) + [s[j]]
  {
    assert s[..j + 1] == s[..j] + [s[j]];
  }

  /** A non-empty `s` with `x` appended keeps its head, and its tail gets
      `x` appended. */
  lemma HeadSnoc<T>(s: seq<T>, x: T)
    requires |s| > 0
    ensures (s + [x])[0] == s[0] && (s + [x])[1..] == s[1..] + [x]
    ensures s == [s[0]] + s[1..]
  {
  }

  /** `(x + y) + t` regrouped as `x + (y + t)`. */
  lemma Regroup<T>(whole: seq<T>, front: seq<T>, x: seq<T>, y: seq<T>, t: seq<T>, back: seq<T>)
    requires whole == front + t && front == x + y && back == y + t
    ensures whole == x + back
  {
  }
}
