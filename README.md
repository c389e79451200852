# Skippable errors of the eventing controller

This project models the skippable-error wrapper of the eventing manager's
controller (`internal/controller/errors`). A reconciliation step can tag an
error as skippable with `NewSkippable`; the controller's final error handling
asks `IsSkippable` whether to stop quietly (no error reported, no requeue) or
to let the error propagate. The wrapper's contract is fixed by the
table-driven tests `Test_NewSkippable` and `Test_IsSkippable`, and the model
states every row of those tables as a property of all inputs.

Go errors are modelled as a datatype `Error` with four kinds:

- `Nil`: the nil error.
- `Plain(msg)`: `fmt.Errorf` without `%w`, which wraps nothing.
- `Skippable(cause)`: the skippable kind. Its cause may be nil or skippable itself.
- `Wrapped(msg, inner)`: `fmt.Errorf("... %w", inner)`, which annotates `inner`.

On it, `Unwrap` is Go's `errors.Unwrap`, `NewSkippable` adds one skippable
layer, and `IsSkippable` is the decision. The decision inspects the outermost
layer only. `HasSkippableInChain` is the deep search along the unwrap chain
(what `errors.As` would do). The decision deliberately does not perform it.
The model proves that, apart from the nil error (suppressed by the decision,
not found by the search), the two differ exactly on a skippable error under
one or more `%w` annotations, the case of the last test row.
`UnwrapN`, `SkipN` and `Annotate` apply `errors.Unwrap`, `NewSkippable` and a
`%w` annotation several times, so that the test rows can be generalised from
one or two layers to any number.

All of it lives in module `SkippableErrors` in `skippable.dfy`.

## Model

| member | source | states |
|---|---|---|
| SkippableErrors.NewSkippable | internal/controller/errors/skip_unit_test.go:15-29 | the result is never nil, even for a nil or already skippable input; one `errors.Unwrap` gives back exactly the input; the result differs from the input, so nesting is not collapsed |
| SkippableErrors.Unwrap | internal/controller/errors/skip_unit_test.go:27 | `errors.Unwrap` of nil is nil; on any other error it removes exactly one error from the unwrap chain |
| SkippableErrors.IsSkippable | internal/controller/errors/skip_unit_test.go:33-68 | an error is suppressed exactly when it is nil or was produced by `NewSkippable`, whatever it wraps |
| SkippableErrors.UnwrapN | internal/controller/errors/skip_unit_test.go:27 | repeated `errors.Unwrap` reaches nil after exactly as many steps as the chain has errors, and not before; every chain is finite |
| SkippableErrors.NewSkippableIsSkippable | internal/controller/errors/skip_unit_test.go:44-48 | whatever `e` is, `NewSkippable(e)` is judged skippable |
| SkippableErrors.NestedUnwrapKeepsInnerLayer | internal/controller/errors/skip_unit_test.go:16-28 | unwrapping `NewSkippable(NewSkippable(e))` yields `NewSkippable(e)`, which is not `e` |
| SkippableErrors.SkipNDepth | internal/controller/errors/skip_unit_test.go:15-29 | each `NewSkippable` adds exactly one error to the unwrap chain |
| SkippableErrors.SkipNUnwrap | internal/controller/errors/skip_unit_test.go:15-29 | `k` unwraps of an `n`-fold skippable error remove exactly `k` layers; after `n` unwraps the original cause is back |
| SkippableErrors.NestingNeverCollapses | internal/controller/errors/skip_unit_test.go:15-29 | wrapping the same error a different number of times never yields the same error |
| SkippableErrors.SkipNLayersSkippable | internal/controller/errors/skip_unit_test.go:15-29 | every layer of an `n`-fold skippable error above its cause is judged skippable |
| SkippableErrors.NilIsSkippable | internal/controller/errors/skip_unit_test.go:39-43 | the nil error is judged skippable |
| SkippableErrors.PlainIsNotSkippable | internal/controller/errors/skip_unit_test.go:49-53 | an error made by `fmt.Errorf` without `%w` is not skippable |
| SkippableErrors.OuterKindDecides | internal/controller/errors/skip_unit_test.go:39-58 | two errors of the same outermost kind get the same decision, whatever lies beneath |
| SkippableErrors.AnnotatedSkippableNotSkippable | internal/controller/errors/skip_unit_test.go:54-58 | a skippable error annotated with one or more `%w` layers is not skippable, although exactly that many unwraps reach the skippable error and the deep search finds it |
| SkippableErrors.DecisionIsNotDeepSearch | internal/controller/errors/skip_unit_test.go:54-58 | there is an error on whose chain a skippable error lies and which the decision does not suppress |
| SkippableErrors.DisagreementIsAnnotated | internal/controller/errors/skip_unit_test.go:54-58 | every non-nil error that has a skippable error on its unwrap chain but is not suppressed is a skippable error under one or more `%w` annotations |
| SkippableErrors.DecisionImpliesDeepSearch | internal/controller/errors/skip_unit_test.go:44-48 | a non-nil error the decision suppresses is also found by the deep search |
| SkippableErrors.DeepSearchWitness | internal/controller/errors/skip_unit_test.go:54-58 | when the deep search succeeds, some number of unwraps below the chain length reaches a skippable error |
| SkippableErrors.DeepSearchComplete | internal/controller/errors/skip_unit_test.go:54-58 | when some number of unwraps reaches a skippable error, the deep search succeeds |

## Left out

- The implementation file of the wrapper is not part of this model. The wrapper is modelled from what its tests assert.
- The connection builder (`pkg/backend/jetstream/connection.go`) is not modelled. It is a thin wrapper over the NATS client's `Connect`. Retry, backoff and liveness happen inside that client library and over the network.
- Error messages and Go formatting (`%#v`, the text `fmt.Errorf` produces) are not modelled. Messages are opaque strings.
- Equality is structural equality of the datatype. The tests compare Go error values with `!=`, which compares pointers for the wrapper; runtime type identity and pointer identity are not modelled.
- `fmt.Errorf` with several `%w` operands (an error with `Unwrap() []error`) is not modelled. The tests use at most one.
- The test runner (`t.Run`, `t.Errorf`) is not modelled. Only the assertions carry behaviour.
