/**
  The controller's skippable-error wrapper.

  A reconciliation step may tag an error as "skippable": the controller then
  stops the step without reporting a failure or requeuing. `NewSkippable` adds
  the tag as one new outermost layer, `Unwrap` (Go's `errors.Unwrap`) peels one
  layer off again, and `IsSkippable` is the controller's decision. The decision
  looks at the outermost layer only: a skippable error that has been annotated
  with further context by `fmt.Errorf("... %w", err)` is no longer skippable,
  even though a deep search down the unwrap chain would still find the tag.
 */
module SkippableErrors {

  /** Error text; the model never inspects it. */
  type Message = string

  /** A Go `error` value as far as this wrapper can tell them apart. */
  datatype Error =
    | Nil                                 // the nil error: no failure
    | Plain(msg: Message)                 // fmt.Errorf without %w: wraps nothing
    | Skippable(cause: Error)             // the skippable kind; its cause may be nil
    | Wrapped(msg: Message, inner: Error) // fmt.Errorf with %w: annotates `inner`

  /** Number of non-nil errors on the unwrap chain starting at `e`. */
  function Depth(e: Error): (d: nat)
    ensures d == 0 <==> e == Nil
  {
    match e
    case Nil => 0
    case Plain(_) => 1
    case Skippable(c) => 1 + Depth(c)
    case Wrapped(_, i) => 1 + Depth(i)
  }

  /**
    Go's `errors.Unwrap`: the error that `e` wraps, or nil when `e` is nil or
    wraps nothing. Every unwrap shortens the chain by exactly one error.
   */
  function Unwrap(e: Error): (r: Error)
    ensures e == Nil ==> r == Nil
    ensures e != Nil ==> Depth(r) + 1 == Depth(e)
  {
    match e
    case Nil => Nil
    case Plain(_) => Nil
    case Skippable(c) => c
    case Wrapped(_, i) => i
  }

  /**
    Marks `e` as skippable. Never nil, not even for a nil `e`, and one unwrap
    gives back exactly `e`: an already skippable `e` is wrapped again, not
    collapsed.
   */
  function NewSkippable(e: Error): (r: Error)
    ensures r != Nil
    ensures Unwrap(r) == e
    ensures r != e
  {
    Skippable(e)
  }

  /**
    The controller's decision to suppress an error: true exactly for the nil
    error and for errors made by `NewSkippable`, whatever they wrap.
   */
  function IsSkippable(e: Error): (b: bool)
    ensures b <==> (e == Nil || exists c :: e == NewSkippable(c))
  {
    match e
    case Nil => true
    case Skippable(c) =>
      assert e == NewSkippable(c);
      true
    case _ => false
  }

  /** Applies `errors.Unwrap` `k` times. */
  function UnwrapN(e: Error, k: nat): (r: Error)
    ensures r == Nil <==> k >= Depth(e)
    ensures k < Depth(e) ==> Depth(r) == Depth(e) - k
    decreases k
  {
    if k == 0 then e else UnwrapN(Unwrap(e), k - 1)
  }

  /** `NewSkippable` applied `n` times to `e`. */
  function SkipN(e: Error, n: nat): (r: Error)
  {
    if n == 0 then e else NewSkippable(SkipN(e, n - 1))
  }

  /**
    `fmt.Errorf("<m> %w", ...)` applied once per message, `msgs[0]` being the
    outermost annotation.
   */
  function Annotate(msgs: seq<Message>, e: Error): (r: Error)
  {
    if msgs == [] then e else Wrapped(msgs[0], Annotate(msgs[1..], e))
  }

  /**
    The deep search that `IsSkippable` deliberately does NOT perform: does any
    error on the unwrap chain of `e` carry the skippable tag (what `errors.As`
    would find)?
   */
  function HasSkippableInChain(e: Error): (b: bool)
    decreases Depth(e)
  {
    e != Nil && (e.Skippable? || HasSkippableInChain(Unwrap(e)))
  }

  // ---------------------------------------------------------------------------
  // Test_NewSkippable, generalised to every error
  // ---------------------------------------------------------------------------

  /** The result of `NewSkippable` is always skippable, whatever it wraps. */
  lemma NewSkippableIsSkippable(e: Error)
    ensures IsSkippable(NewSkippable(e))
  {
  }

  /**
    Nesting is not collapsed: unwrapping a doubly wrapped error yields the
    inner skippable error, not the original cause.
   */
  lemma NestedUnwrapKeepsInnerLayer(e: Error)
    ensures Unwrap(NewSkippable(NewSkippable(e))) == NewSkippable(e)
    ensures Unwrap(NewSkippable(NewSkippable(e))) != e
  {
  }

  /** Each wrap adds exactly one error to the unwrap chain. */
  lemma {:induction false} SkipNDepth(e: Error, n: nat)
    ensures Depth(SkipN(e, n)) == Depth(e) + n
  {
    if n > 0 {
      SkipNDepth(e, n - 1);
    }
  }

  /**
    `k` unwraps of an `n`-fold skippable error remove exactly `k` skippable
    layers; after `n` unwraps the original cause is back.
   */
  lemma {:induction false} SkipNUnwrap(e: Error, n: nat, k: nat)
    requires k <= n
    ensures UnwrapN(SkipN(e, n), k) == SkipN(e, n - k)
  {
    if k > 0 {
      SkipNUnwrap(e, n - 1, k - 1);
    }
  }

  /** Wrapping a different number of times always gives a different error. */
  lemma NestingNeverCollapses(e: Error, n: nat, m: nat)
    requires n != m
    ensures SkipN(e, n) != SkipN(e, m)
  {
    SkipNDepth(e, n);
    SkipNDepth(e, m);
  }

  /** Every layer of an `n`-fold skippable error above the cause is skippable. */
  lemma SkipNLayersSkippable(e: Error, n: nat, k: nat)
    requires k < n
    ensures IsSkippable(UnwrapN(SkipN(e, n), k))
  {
    SkipNUnwrap(e, n, k);
  }

  // ---------------------------------------------------------------------------
  // Test_IsSkippable, generalised to every error
  // ---------------------------------------------------------------------------

  /** The nil error is skippable. */
  lemma NilIsSkippable()
    ensures IsSkippable(Nil)
  {
  }

  /** An error made by `fmt.Errorf` without `%w` is not skippable. */
  lemma PlainIsNotSkippable(m: Message)
    ensures !IsSkippable(Plain(m))
  {
  }

  /** Both errors have the same outermost kind. */
  predicate SameOuterKind(a: Error, b: Error)
  {
    || (a.Nil? && b.Nil?)
    || (a.Plain? && b.Plain?)
    || (a.Skippable? && b.Skippable?)
    || (a.Wrapped? && b.Wrapped?)
  }

  /** The decision depends on the outermost kind only, not on what lies beneath. */
  lemma OuterKindDecides(a: Error, b: Error)
    requires SameOuterKind(a, b)
    ensures IsSkippable(a) == IsSkippable(b)
  {
  }

  /**
    Annotating a skippable error with one or more `%w` layers turns the
    decision off, although the skippable error is still on the chain: exactly
    `|msgs|` unwraps reach it and the deep search finds it.
   */
  lemma {:induction false} AnnotatedSkippableNotSkippable(msgs: seq<Message>, c: Error)
    requires |msgs| > 0
    ensures !IsSkippable(Annotate(msgs, NewSkippable(c)))
    ensures UnwrapN(Annotate(msgs, NewSkippable(c)), |msgs|) == NewSkippable(c)
    ensures HasSkippableInChain(Annotate(msgs, NewSkippable(c)))
  {
    if |msgs| > 1 {
      AnnotatedSkippableNotSkippable(msgs[1..], c);
    }
  }

  /** The decision is not the deep search: the two disagree on some error. */
  lemma DecisionIsNotDeepSearch()
    ensures exists e :: HasSkippableInChain(e) && !IsSkippable(e)
  {
    var e := Wrapped("some error", NewSkippable(Plain("some error")));
    AnnotatedSkippableNotSkippable(["some error"], Plain("some error"));
    assert Annotate(["some error"], NewSkippable(Plain("some error"))) == e;
  }

  /**
    Conversely, apart from nil, every error on which the decision and the deep
    search disagree is a skippable error under one or more `%w` annotations.
   */
  lemma {:induction false} DisagreementIsAnnotated(e: Error) returns (msgs: seq<Message>, c: Error)
    requires e != Nil && HasSkippableInChain(e) && !IsSkippable(e)
    ensures |msgs| > 0 && e == Annotate(msgs, NewSkippable(c))
    decreases Depth(e)
  {
    match e
    case Wrapped(m, i) =>
      if i.Skippable? {
        msgs, c := [m], i.cause;
      } else {
        var rest;
        rest, c := DisagreementIsAnnotated(i);
        msgs := [m] + rest;
        assert msgs[1..] == rest;
      }
  }

  /**
    A non-nil error the decision suppresses carries the tag on its own
    outermost layer, so the deep search finds it too.
   */
  lemma DecisionImpliesDeepSearch(e: Error)
    requires IsSkippable(e) && e != Nil
    ensures HasSkippableInChain(e)
  {
  }

  // ---------------------------------------------------------------------------
  // The deep search walks the unwrap chain
  // ---------------------------------------------------------------------------

  /** When the deep search succeeds, some number of unwraps reaches the tag. */
  lemma {:induction false} DeepSearchWitness(e: Error) returns (k: nat)
    requires HasSkippableInChain(e)
    ensures k < Depth(e) && UnwrapN(e, k).Skippable?
    decreases Depth(e)
  {
    if e.Skippable? {
      k := 0;
    } else {
      var j := DeepSearchWitness(Unwrap(e));
      k := j + 1;
    }
  }

  /** When some number of unwraps reaches the tag, the deep search succeeds. */
  lemma {:induction false} DeepSearchComplete(e: Error, k: nat)
    requires UnwrapN(e, k).Skippable?
    ensures HasSkippableInChain(e)
    decreases k
  {
    if k > 0 {
      DeepSearchComplete(Unwrap(e), k - 1);
    }
  }
}
