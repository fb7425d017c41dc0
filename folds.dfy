/** Two folds over a sequence that the relationship loop is built from. */
module Folds {
  import opened Wrappers

  /** The concatenation of what `f` gives for each element, in order. */
  function Collect<T, U>(s: seq<T>, f: T -> seq<U>): seq<U>
  {
    if |s| == 0 then [] else Collect(s[..|s| - 1], f) + f(s[|s| - 1])
  }

  /** Collect distributes over concatenation. */
  lemma {:induction false} CollectAppend<T, U>(a: seq<T>, b: seq<T>, f: T -> seq<U>)
    ensures Collect(a + b, f) == Collect(a, f) + Collect(b, f)
  {
    if |b| == 0 {
      assert a + b == a;
    } else {
      var ab := a + b;
      assert ab[..|ab| - 1] == a + b[..|b| - 1];
      assert ab[|ab| - 1] == b[|b| - 1];
      CollectAppend(a, b[..|b| - 1], f);
    }
  }

  /** Collect over elements that all give nothing is empty. */
  lemma {:induction false} CollectNothing<T, U>(s: seq<T>, f: T -> seq<U>)
    requires forall k :: 0 <= k < |s| ==> f(s[k]) == []
    ensures Collect(s, f) == []
  {
    if |s| > 0 {
      CollectNothing(s[..|s| - 1], f);
    }
  }

  /** Elements that give nothing can be inserted anywhere without changing Collect. */
  lemma CollectSkipsNothing<T, U>(a: seq<T>, extra: seq<T>, b: seq<T>, f: T -> seq<U>)
    requires forall k :: 0 <= k < |extra| ==> f(extra[k]) == []
    ensures Collect(a + extra + b, f) == Collect(a + b, f)
  {
    CollectNothing(extra, f);
    CollectAppend(a, extra, f);
    CollectAppend(a + extra, b, f);
    CollectAppend(a, b, f);
  }

  /** The value `f` gives for the last element for which it gives one. */
  function LastSome<T, U>(s: seq<T>, f: T -> Option<U>): Option<U>
  {
    if |s| == 0 then None
    else if f(s[|s| - 1]).Some? then f(s[|s| - 1])
    else LastSome(s[..|s| - 1], f)
  }

  /** LastSome is None exactly when `f` gives nothing for every element, and
      otherwise the value of an element after which `f` gives nothing. */
  lemma {:induction false} LastSomeIsLast<T, U>(s: seq<T>, f: T -> Option<U>)
    ensures LastSome(s, f).None? <==> forall i :: 0 <= i < |s| ==> f(s[i]).None?
    ensures LastSome(s, f).Some? ==>
      exists i :: 0 <= i < |s| && f(s[i]) == LastSome(s, f) &&
        forall j :: i < j < |s| ==> f(s[j]).None?
  {
    if |s| > 0 && f(s[|s| - 1]).None? {
      var init := s[..|s| - 1];
      LastSomeIsLast(init, f);
      assert forall i :: 0 <= i < |init| ==> init[i] == s[i];
    }
  }

  /** The last value of a concatenation is the second part's, if it has one. */
  lemma {:induction false} LastSomeAppend<T, U>(a: seq<T>, b: seq<T>, f: T -> Option<U>)
    ensures LastSome(a + b, f) == if LastSome(b, f).Some? then LastSome(b, f) else LastSome(a, f)
  {
    if |b| == 0 {
      assert a + b == a;
    } else {
      var ab := a + b;
      assert ab[..|ab| - 1] == a + b[..|b| - 1];
      assert ab[|ab| - 1] == b[|b| - 1];
      LastSomeAppend(a, b[..|b| - 1], f);
    }
  }

  /** Elements that give None can be inserted anywhere without changing LastSome. */
  lemma LastSomeSkipsNone<T, U>(a: seq<T>, extra: seq<T>, b: seq<T>, f: T -> Option<U>)
    requires forall k :: 0 <= k < |extra| ==> f(extra[k]).None?
    ensures LastSome(a + extra + b, f) == LastSome(a + b, f)
  {
    LastSomeIsLast(extra, f);
    LastSomeAppend(a, extra, f);
    LastSomeAppend(a + extra, b, f);
    LastSomeAppend(a, b, f);
  }
}
