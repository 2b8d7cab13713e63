/** The behaviours the repository's tests check, stated as verified
    methods over the `Ola` class: a coordinator built from a number or from `{ x: ... }` reads its
    initial value, and reads its new value once the default 300 ms have
    passed after a `set`. */
module Scenarios {
  import opened Dimension
  import opened Coordinator

  /** `Ola(init)`, read at once, then `set(target)`, then read again after
      the default duration. */
  method UpdateNumber(init: real, target: real, created: real, setAt: real, readAt: real)
    returns (before: Option<real>, after: Option<real>)
    requires readAt - setAt >= 0.3
    ensures before == Some(init)
    ensures after == Some(target)
  {
    var pos := new Ola(Number(init), created);
    InitialsOfOne("value", init, 0.3, created);
    var start := Initial(init, 0.3, created);
    assert pos.States() == map["value" := start];
    InitialIsConstant(init, 0.3, created, created);
    before := pos.Get(created);
    RetargetEachOne("value", start, target, 0.0, setAt);
    KeysInOne("value", target, pos.dims.Keys);
    pos.Set(Number(target), setAt);
    RetargetReachesTarget(start, target, 0.0, setAt, readAt);
    after := pos.Get(readAt);
  }

  /** `Ola({ x: init })`, read through `get("x")`, then `set({ x: target })`,
      then read again after the default duration. */
  method UpdateField(init: real, target: real, created: real, setAt: real, readAt: real)
    returns (before: Option<real>, after: Option<real>)
    requires readAt - setAt >= 0.3
    ensures before == Some(init)
    ensures after == Some(target)
  {
    var pos := new Ola(Object([("x", init)]), created);
    InitialsOfOne("x", init, 0.3, created);
    var start := Initial(init, 0.3, created);
    assert pos.States() == map["x" := start];
    InitialIsConstant(init, 0.3, created, created);
    before := pos.Get(created, "x");
    KeysInOne("x", target, pos.dims.Keys);
    RetargetEachOne("x", start, target, 0.0, setAt);
    pos.Set(Object([("x", target)]), setAt);
    RetargetReachesTarget(start, target, 0.0, setAt, readAt);
    after := pos.Get(readAt, "x");
  }
}
