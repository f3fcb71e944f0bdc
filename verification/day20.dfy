/** Day 20, "Pulse Propagation" (day-20/src/main.rs): flip-flops,
    conjunctions and a broadcaster pass low and high pulses along wires.
    Pressing the button sends one low pulse to the broadcaster; the pulses
    are then handled first in, first out, until none is left. Module names
    are kept as strings. */
module Day20 {
  import opened Wrappers
  import Text

  type Name = string

  /** The names the program hashes up front. */
  const BroadcasterName: Name := "broadcaster"
  const RxName: Name := "rx"

  datatype Pulse = Low | High

  datatype FlipState = Off | On

  /** A module and what it remembers: a flip-flop its state, a conjunction
      the last pulse from each input. */
  datatype Module =
    | Broadcaster
    | FlipFlop(state: FlipState)
    | Conjunction(memory: map<Name, Pulse>)

  /** Every remembered input last sent a high pulse. */
  predicate AllHigh(memory: map<Name, Pulse>) {
    forall k :: k in memory ==> memory[k] == High
  }

  /** `Module::push`: the module's state after the pulse, and the pulse it
      sends on to all its targets, if any. A flip-flop ignores a high pulse
      and toggles on a low one, sending high when it turns on and low when
      it turns off. A conjunction first remembers the pulse for its source,
      then sends low exactly when every remembered input is high; without a
      source it panics on `expect`. The broadcaster forwards the pulse. */
  function Push(m: Module, pulse: Pulse, source: Option<Name>): (r: Result<(Module, Option<Pulse>)>)
    ensures r.Err? <==> m.Conjunction? && source.None?
    ensures r.Err? ==> r.error.Panic?
    ensures m.FlipFlop? && pulse == High ==> r == Ok((m, None))
    ensures m.FlipFlop? && pulse == Low ==>
      r.Ok? && r.value.0.FlipFlop? && r.value.0.state != m.state
      && r.value.1 == Some(if r.value.0.state == On then High else Low)
    ensures m.Conjunction? && source.Some? ==>
      r.Ok? && r.value.0 == Conjunction(m.memory[source.value := pulse])
      && (r.value.1 == Some(Low) <==> AllHigh(r.value.0.memory))
      && r.value.1.Some?
    ensures m.Broadcaster? ==> r == Ok((m, Some(pulse)))
  {
    match m
    case FlipFlop(s) =>
      if pulse == High then Ok((m, None))
      else if s == Off then Ok((FlipFlop(On), Some(High)))
      else Ok((FlipFlop(Off), Some(Low)))
    case Conjunction(memory) =>
      if source.None? then Err(Panic("Need a source for the conjunction"))
      else
        var memory' := memory[source.value := pulse];
        Ok((Conjunction(memory'), Some(if AllHigh(memory') then Low else High)))
    case Broadcaster => Ok((m, Some(pulse)))
  }

  /** Two low pulses bring a flip-flop back to where it was, and it sends
      one high and one low pulse on the way. */
  lemma FlipFlopRoundTrip(s: FlipState, a: Option<Name>, b: Option<Name>)
    ensures var first := Push(FlipFlop(s), Low, a).value;
      var second := Push(first.0, Low, b).value;
      second.0 == FlipFlop(s)
      && multiset{first.1.value, second.1.value} == multiset{Low, High}
  {
  }

  /** The opposite pulse. */
  function Invert(p: Pulse): (q: Pulse)
    ensures q != p
  {
    if p == Low then High else Low
  }

  /** A conjunction with a single input is an inverter. */
  lemma SingleInputInverts(input: Name, last: Pulse, pulse: Pulse)
    ensures Push(Conjunction(map[input := last]), pulse, Some(input))
      == Ok((Conjunction(map[input := pulse]), Some(Invert(pulse))))
  {
    var memory' := map[input := pulse];
    assert map[input := last][input := pulse] == memory';
    assert AllHigh(memory') <==> pulse == High by {
      assert input in memory';
    }
  }

  /** A conjunction sends low only once every one of its inputs has sent
      high after the last low: a low pulse from any input makes it send
      high. */
  lemma LowInputSendsHigh(memory: map<Name, Pulse>, source: Name)
    ensures Push(Conjunction(memory), Low, Some(source)).value.1 == Some(High)
  {
    var memory' := memory[source := Low];
    assert source in memory' && memory'[source] == Low;
  }

  /** A conjunction's memory with each listed input set to low, in list
      order, as the `for_each` of `make_inputs_known` inserts them. */
  function Remember(memory: map<Name, Pulse>, inputs: seq<Name>): map<Name, Pulse>
    decreases |inputs|
  {
    if inputs == [] then memory else Remember(memory[inputs[0] := Low], inputs[1..])
  }

  /** Reference definition: the memory with the given inputs low and every
      other entry as it was. */
  function Known(memory: map<Name, Pulse>, inputs: set<Name>): (r: map<Name, Pulse>)
    ensures r.Keys == memory.Keys + inputs
  {
    map k | k in memory.Keys + inputs :: if k in inputs then Low else memory[k]
  }

  /** Inserting the inputs one by one gives the reference memory: the
      order and any repetition of the inputs do not matter. */
  lemma {:induction false} RememberKnown(memory: map<Name, Pulse>, inputs: seq<Name>)
    ensures Remember(memory, inputs) == Known(memory, set x | x in inputs)
    decreases |inputs|
  {
    if inputs != [] {
      var x := inputs[0];
      var rest := inputs[1..];
      RememberKnown(memory[x := Low], rest);
      assert (set y | y in inputs) == {x} + (set y | y in rest) by {
        assert inputs == [x] + rest;
      }
      KnownInsert(memory, x, set y | y in rest);
    }
  }

  /** Setting one input low first is the same as listing it. */
  lemma KnownInsert(memory: map<Name, Pulse>, x: Name, rest: set<Name>)
    ensures Known(memory[x := Low], rest) == Known(memory, {x} + rest)
  {
    var a, b := Known(memory[x := Low], rest), Known(memory, {x} + rest);
    assert a.Keys == b.Keys;
    forall k | k in a
      ensures a[k] == b[k]
    {
    }
  }

  /** `make_inputs_known`: a conjunction remembers a low pulse from each
      listed input and keeps what it knew of the others; any other module
      is left as it is. */
  function MakeInputsKnown(m: Module, inputs: seq<Name>): (r: Module)
    ensures !m.Conjunction? ==> r == m
    ensures m.Conjunction? ==>
              r.Conjunction?
              && r.memory.Keys == m.memory.Keys + (set x | x in inputs)
              && (forall k :: k in r.memory ==> r.memory[k] == if k in inputs then Low else m.memory[k])
  {
    match m
    case Conjunction(memory) =>
      RememberKnown(memory, inputs);
      Conjunction(Remember(memory, inputs))
    case _ => m
  }

  /** The set form of `make_inputs_known`, as the wiring uses it. */
  function KnowInputs(m: Module, inputs: set<Name>): Module {
    match m
    case Conjunction(memory) => Conjunction(Known(memory, inputs))
    case _ => m
  }

  /** Only the set of inputs matters to `make_inputs_known`. */
  lemma MakeInputsKnownSet(m: Module, inputs: seq<Name>)
    ensures MakeInputsKnown(m, inputs) == KnowInputs(m, set x | x in inputs)
  {
    if m.Conjunction? {
      RememberKnown(m.memory, inputs);
    }
  }

  /** A conjunction that knows no input learns exactly the listed ones, all
      low: it will not send low before each of them has sent high. */
  lemma MakeInputsKnownResets(inputs: seq<Name>)
    ensures var r := MakeInputsKnown(Conjunction(map[]), inputs);
      r.memory.Keys == (set x | x in inputs) && forall k :: k in r.memory ==> r.memory[k] == Low
  {
  }

  /** Each module by name, with the names it sends to, in order. */
  type Network = map<Name, (Module, seq<Name>)>

  /** A pulse on its way: the module it goes to, and the module that sent
      it (none for the button). */
  datatype Signal = Signal(target: Name, pulse: Pulse, source: Option<Name>)

  /** What a module sends: the pulse to each of its targets, in order. */
  function Fan(from: Name, pulse: Pulse, targets: seq<Name>): (r: seq<Signal>)
    ensures |r| == |targets|
    ensures forall i :: 0 <= i < |r| ==> r[i] == Signal(targets[i], pulse, Some(from))
  {
    seq(|targets|, i requires 0 <= i < |targets| => Signal(targets[i], pulse, Some(from)))
  }

  /** The signals a module sends on receiving `sig`, with its new state. */
  function Handle(net: Network, sig: Signal): (r: Result<(Network, seq<Signal>)>)
    requires sig.target in net
  {
    var entry := net[sig.target];
    var pushed :- Push(entry.0, sig.pulse, sig.source);
    var sent := if pushed.1.Some? then Fan(sig.target, pushed.1.value, entry.1) else [];
    Ok((net[sig.target := (pushed.0, entry.1)], sent))
  }

  /** The `while let` loop of `push_button`: signals are taken from the
      front of the queue, a signal to a name without a module is dropped,
      and what a module sends joins the back. The result is the network
      once the queue is empty and every signal sent on the way, in sending
      order. At most `fuel` signals are taken; the program keeps going as
      long as pulses keep coming, which the model reports as `Hang`. */
  function Cascade(net: Network, queue: seq<Signal>, fuel: nat): (r: Result<(Network, seq<Signal>)>)
    ensures r.Err? ==> r.error.Hang? || r.error.Panic?
    decreases fuel
  {
    if queue == [] then Ok((net, []))
    else if fuel == 0 then Err(Hang)
    else if queue[0].target !in net then Cascade(net, queue[1..], fuel - 1)
    else
      var step :- Handle(net, queue[0]);
      var rest :- Cascade(step.0, queue[1..] + step.1, fuel - 1);
      Ok((rest.0, step.1 + rest.1))
  }

  /** The number of signals carrying pulse `p`. */
  function Tally(sigs: seq<Signal>, p: Pulse): (n: nat)
    ensures n <= |sigs|
  {
    if sigs == [] then 0 else (if sigs[0].pulse == p then 1 else 0) + Tally(sigs[1..], p)
  }

  /** Some signal is a low pulse to `rx`. */
  predicate RxLow(sigs: seq<Signal>) {
    exists i :: 0 <= i < |sigs| && sigs[i].target == RxName && sigs[i].pulse == Low
  }

  /** The outcome of one press: the network afterwards, the low and high
      pulse counts, and whether `rx` got a low pulse. */
  datatype Press = Press(net: Network, low: nat, high: nat, rx: bool)

  /** The button's low pulse to the broadcaster. */
  const Button: Signal := Signal(BroadcasterName, Low, None)

  /** `push_button`, as a function of the signals sent: the low count starts
      at one for the button's own pulse and each sent signal adds one to
      the count of its pulse. */
  function PushButton(net: Network, fuel: nat): (r: Result<Press>)
    ensures r.Ok? ==> r.value.low >= 1
  {
    var c :- Cascade(net, [Button], fuel);
    Ok(Press(c.0, 1 + Tally(c.1, Low), Tally(c.1, High), RxLow(c.1)))
  }

  /** Every pulse is low or high: the two counts of a press add up to the
      button's pulse plus every signal sent. */
  lemma {:induction false} TallyBoth(sigs: seq<Signal>)
    ensures Tally(sigs, Low) + Tally(sigs, High) == |sigs|
    decreases |sigs|
  {
    if sigs != [] {
      TallyBoth(sigs[1..]);
    }
  }

  lemma {:induction false} TallyAppend(a: seq<Signal>, b: seq<Signal>, p: Pulse)
    ensures Tally(a + b, p) == Tally(a, p) + Tally(b, p)
    decreases |a|
  {
    if a != [] {
      TallyAppend(a[1..], b, p);
      assert (a + b)[0] == a[0] && (a + b)[1..] == a[1..] + b;
    } else {
      assert a + b == b;
    }
  }

  lemma RxLowAppend(a: seq<Signal>, b: seq<Signal>)
    ensures RxLow(a + b) <==> RxLow(a) || RxLow(b)
  {
    if RxLow(a) {
      var i :| 0 <= i < |a| && a[i].target == RxName && a[i].pulse == Low;
      assert (a + b)[i] == a[i];
    }
    if RxLow(b) {
      var i :| 0 <= i < |b| && b[i].target == RxName && b[i].pulse == Low;
      assert (a + b)[|a| + i] == b[i];
    }
    if RxLow(a + b) {
      var i :| 0 <= i < |a + b| && (a + b)[i].target == RxName && (a + b)[i].pulse == Low;
      if i >= |a| {
        assert b[i - |a|] == (a + b)[i];
      }
    }
  }

  /** The signals sent so far put in front of what the rest of the cascade
      sends. */
  function Prefix(sent: seq<Signal>, r: Result<(Network, seq<Signal>)>): Result<(Network, seq<Signal>)> {
    match r
    case Ok((n, later)) => Ok((n, sent + later))
    case Err(e) => Err(e)
  }

  lemma PrefixNil(r: Result<(Network, seq<Signal>)>)
    ensures Prefix([], r) == r
  {
    if r.Ok? {
      assert [] + r.value.1 == r.value.1;
    }
  }

  lemma PrefixPrefix(a: seq<Signal>, b: seq<Signal>, r: Result<(Network, seq<Signal>)>)
    ensures Prefix(a, Prefix(b, r)) == Prefix(a + b, r)
  {
    if r.Ok? {
      assert a + (b + r.value.1) == (a + b) + r.value.1;
    }
  }

  /** One signal taken from the queue: the cascade from before is the
      signals it makes the module send followed by the cascade after. */
  lemma CascadeStep(sent: seq<Signal>, net: Network, queue: seq<Signal>, fuel: nat)
    requires queue != [] && fuel > 0 && queue[0].target in net && Handle(net, queue[0]).Ok?
    ensures var step := Handle(net, queue[0]).value;
      Prefix(sent, Cascade(net, queue, fuel)) == Prefix(sent + step.1, Cascade(step.0, queue[1..] + step.1, fuel - 1))
  {
    var step := Handle(net, queue[0]).value;
    PrefixPrefix(sent, step.1, Cascade(step.0, queue[1..] + step.1, fuel - 1));
  }

  /** The loop of `push_button` is on track: the whole cascade is what
      was sent so far followed by the cascade of what is queued. */
  predicate Agrees(net: Network, fuel: nat, sent: seq<Signal>, modules: Network, queue: seq<Signal>, left: nat) {
    Cascade(net, [Button], fuel) == Prefix(sent, Cascade(modules, queue, left))
  }

  lemma AgreesHang(net: Network, fuel: nat, sent: seq<Signal>, modules: Network, queue: seq<Signal>)
    requires Agrees(net, fuel, sent, modules, queue, 0) && queue != []
    ensures PushButton(net, fuel) == Err(Hang)
  {
  }

  lemma AgreesSkip(net: Network, fuel: nat, sent: seq<Signal>, modules: Network, queue: seq<Signal>, left: nat)
    requires Agrees(net, fuel, sent, modules, queue, left) && queue != [] && left > 0 && queue[0].target !in modules
    ensures Agrees(net, fuel, sent, modules, queue[1..], left - 1)
  {
  }

  lemma AgreesFail(net: Network, fuel: nat, sent: seq<Signal>, modules: Network, queue: seq<Signal>, left: nat)
    requires Agrees(net, fuel, sent, modules, queue, left) && queue != [] && left > 0
    requires queue[0].target in modules && Handle(modules, queue[0]).Err?
    ensures PushButton(net, fuel) == Err(Handle(modules, queue[0]).error)
  {
  }

  lemma AgreesStep(net: Network, fuel: nat, sent: seq<Signal>, modules: Network, queue: seq<Signal>, left: nat)
    requires Agrees(net, fuel, sent, modules, queue, left) && queue != [] && left > 0
    requires queue[0].target in modules && Handle(modules, queue[0]).Ok?
    ensures var step := Handle(modules, queue[0]).value;
      Agrees(net, fuel, sent + step.1, step.0, queue[1..] + step.1, left - 1)
  {
    CascadeStep(sent, modules, queue, left);
  }

  lemma AgreesDone(net: Network, fuel: nat, sent: seq<Signal>, modules: Network, left: nat, low: nat, high: nat, rx: bool)
    requires Agrees(net, fuel, sent, modules, [], left) && Counted(sent, low, high, rx)
    ensures PushButton(net, fuel) == Ok(Press(modules, low, high, rx))
  {
    assert sent + [] == sent;
  }

  /** The counters of `push_button` after the signals `sent`. */
  predicate Counted(sent: seq<Signal>, low: nat, high: nat, rx: bool) {
    low == 1 + Tally(sent, Low) && high == Tally(sent, High) && rx == RxLow(sent)
  }

  lemma CountedAppend(sent: seq<Signal>, fan: seq<Signal>, low: nat, high: nat, rx: bool)
    requires Counted(sent, low, high, rx)
    ensures Counted(sent + fan, low + Tally(fan, Low), high + Tally(fan, High), rx || RxLow(fan))
  {
    TallyAppend(sent, fan, Low);
    TallyAppend(sent, fan, High);
    RxLowAppend(sent, fan);
  }

  lemma SnocCounts(sigs: seq<Signal>, sig: Signal)
    ensures Tally(sigs + [sig], Low) == Tally(sigs, Low) + (if sig.pulse == Low then 1 else 0)
    ensures Tally(sigs + [sig], High) == Tally(sigs, High) + (if sig.pulse == High then 1 else 0)
    ensures RxLow(sigs + [sig]) <==> RxLow(sigs) || (sig.target == RxName && sig.pulse == Low)
  {
    TallyAppend(sigs, [sig], Low);
    TallyAppend(sigs, [sig], High);
    RxLowAppend(sigs, [sig]);
    assert [sig][0] == sig;
  }

  /** The inner loop of `push_button`: one pulse per target, each counted
      in its slot, and `rx_activated` set by a low pulse to `rx`. */
  method CountSent(fan: seq<Signal>, low: nat, high: nat, rx: bool) returns (low': nat, high': nat, rx': bool)
    ensures low' == low + Tally(fan, Low) && high' == high + Tally(fan, High)
    ensures rx' == (rx || RxLow(fan))
  {
    low', high', rx' := low, high, rx;
    var i := 0;
    while i < |fan|
      invariant 0 <= i <= |fan|
      invariant low' == low + Tally(fan[..i], Low) && high' == high + Tally(fan[..i], High)
      invariant rx' == (rx || RxLow(fan[..i]))
    {
      var sig := fan[i];
      if sig.target == RxName && sig.pulse == Low {
        rx' := true;
      }
      if sig.pulse == Low {
        low' := low' + 1;
      } else {
        high' := high' + 1;
      }
      assert fan[..i + 1] == fan[..i] + [sig];
      SnocCounts(fan[..i], sig);
      i := i + 1;
    }
    assert fan[..i] == fan;
  }

  /** The body of the `while let` loop for a signal to a module: the
      module is pushed and, if it answers, one signal per target. */
  method HandleSignal(modules: Network, sig: Signal) returns (h: Result<(Network, seq<Signal>)>)
    requires sig.target in modules
    ensures h == Handle(modules, sig)
  {
    var entry := modules[sig.target];
    var pushed := Push(entry.0, sig.pulse, sig.source);
    if pushed.Err? {
      return Err(pushed.error);
    }
    var fan := if pushed.value.1.Some? then Fan(sig.target, pushed.value.1.value, entry.1) else [];
    h := Ok((modules[sig.target := (pushed.value.0, entry.1)], fan));
  }

  /** `Network::push_button` as written: a queue, a two-slot counter and the
      `rx_activated` flag, updated per target as each pulse is sent. It
      agrees with the counting definition above. */
  method PushButtonLoop(net: Network, fuel: nat) returns (r: Result<Press>)
    ensures r == PushButton(net, fuel)
  {
    var modules := net;
    var queue := [Button];
    var low, high := 1, 0;
    var rx := false;
    var left := fuel;
    ghost var sent: seq<Signal> := [];
    PrefixNil(Cascade(net, [Button], fuel));
    while queue != []
      invariant Agrees(net, fuel, sent, modules, queue, left)
      invariant Counted(sent, low, high, rx)
      decreases left
    {
      if left == 0 {
        AgreesHang(net, fuel, sent, modules, queue);
        return Err(Hang);
      }
      var sig, rest := queue[0], queue[1..];
      if sig.target !in modules {
        AgreesSkip(net, fuel, sent, modules, queue, left);
        queue, left := rest, left - 1;
      } else {
        var handled := HandleSignal(modules, sig);
        if handled.Err? {
          AgreesFail(net, fuel, sent, modules, queue, left);
          return Err(handled.error);
        }
        var fan := handled.value.1;
        AgreesStep(net, fuel, sent, modules, queue, left);
        CountedAppend(sent, fan, low, high, rx);
        low, high, rx := CountSent(fan, low, high, rx);
        modules := handled.value.0;
        queue, left := rest + fan, left - 1;
        sent := sent + fan;
      }
    }
    AgreesDone(net, fuel, sent, modules, left, low, high, rx);
    r := Ok(Press(modules, low, high, rx));
  }

  /** The kind of a module, whatever it remembers. */
  predicate SameKind(a: Module, b: Module) {
    (a.Broadcaster? <==> b.Broadcaster?) && (a.FlipFlop? <==> b.FlipFlop?)
  }

  /** Two networks have the same modules, of the same kinds, wired alike. */
  predicate SameWiring(a: Network, b: Network) {
    a.Keys == b.Keys && forall k :: k in a ==> b[k].1 == a[k].1 && SameKind(a[k].0, b[k].0)
  }

  /** Pulses change what modules remember and nothing else: no module is
      added or removed, none changes kind, and no wire moves. */
  lemma {:induction false} CascadeKeepsWiring(net: Network, queue: seq<Signal>, fuel: nat)
    ensures Cascade(net, queue, fuel).Ok? ==> SameWiring(net, Cascade(net, queue, fuel).value.0)
    decreases fuel
  {
    if queue != [] && fuel > 0 {
      if queue[0].target !in net {
        CascadeKeepsWiring(net, queue[1..], fuel - 1);
      } else if Handle(net, queue[0]).Ok? {
        var step := Handle(net, queue[0]).value;
        assert SameWiring(net, step.0);
        CascadeKeepsWiring(step.0, queue[1..] + step.1, fuel - 1);
      }
    }
  }

  /** Every signal in the queue names its sender, unless it goes to a
      module that does not need one. */
  predicate Sourced(net: Network, queue: seq<Signal>) {
    forall i :: 0 <= i < |queue| ==>
      queue[i].source.Some? || queue[i].target !in net || !net[queue[i].target].0.Conjunction?
  }

  lemma SourcedTail(net: Network, queue: seq<Signal>)
    requires queue != [] && Sourced(net, queue)
    ensures Sourced(net, queue[1..])
  {
    assert forall i :: 0 <= i < |queue| - 1 ==> queue[1..][i] == queue[i + 1];
  }

  /** What a module sends names it as the sender. */
  lemma SourcedStep(net: Network, queue: seq<Signal>)
    requires queue != [] && Sourced(net, queue) && queue[0].target in net && Handle(net, queue[0]).Ok?
    ensures var step := Handle(net, queue[0]).value;
      Sourced(step.0, queue[1..] + step.1)
  {
    var step := Handle(net, queue[0]).value;
    assert SameWiring(net, step.0);
    var q := queue[1..] + step.1;
    forall i | 0 <= i < |q|
      ensures q[i].source.Some? || q[i].target !in step.0 || !step.0[q[i].target].0.Conjunction?
    {
      if i < |queue| - 1 {
        assert q[i] == queue[i + 1];
      } else {
        assert q[i] == step.1[i - (|queue| - 1)];
      }
    }
  }

  /** The `expect` in `Module::push` fires only for a conjunction reached by
      a pulse with no sender; every module names itself when it sends. */
  lemma {:induction false} SourcedNoPanic(net: Network, queue: seq<Signal>, fuel: nat)
    requires Sourced(net, queue)
    ensures !(Cascade(net, queue, fuel).Err? && Cascade(net, queue, fuel).error.Panic?)
    decreases fuel
  {
    if queue != [] && fuel > 0 {
      if queue[0].target !in net {
        SourcedTail(net, queue);
        SourcedNoPanic(net, queue[1..], fuel - 1);
      } else {
        assert Handle(net, queue[0]).Ok?;
        var step := Handle(net, queue[0]).value;
        SourcedStep(net, queue);
        SourcedNoPanic(step.0, queue[1..] + step.1, fuel - 1);
      }
    }
  }

  /** A press panics exactly when the button's pulse, which has no sender,
      reaches a broadcaster that was declared as a conjunction. */
  lemma PushButtonPanics(net: Network, fuel: nat)
    ensures (PushButton(net, fuel).Err? && PushButton(net, fuel).error.Panic?)
      <==> fuel > 0 && BroadcasterName in net && net[BroadcasterName].0.Conjunction?
  {
    if fuel > 0 && BroadcasterName in net && net[BroadcasterName].0.Conjunction? {
      assert Cascade(net, [Button], fuel).Err?;
    } else if fuel > 0 {
      SourcedNoPanic(net, [Button], fuel);
    }
  }

  /** No module sends to `rx`. */
  predicate NoRx(net: Network) {
    forall k :: k in net ==> RxName !in net[k].1
  }

  /** Without a wire to `rx`, no pulse ever reaches it. */
  lemma {:induction false} CascadeNoRx(net: Network, queue: seq<Signal>, fuel: nat)
    requires NoRx(net)
    ensures Cascade(net, queue, fuel).Ok? ==> !RxLow(Cascade(net, queue, fuel).value.1)
    decreases fuel
  {
    if queue != [] && fuel > 0 {
      if queue[0].target !in net {
        CascadeNoRx(net, queue[1..], fuel - 1);
      } else if Handle(net, queue[0]).Ok? {
        var step := Handle(net, queue[0]).value;
        assert SameWiring(net, step.0);
        CascadeNoRx(step.0, queue[1..] + step.1, fuel - 1);
        if Cascade(net, queue, fuel).Ok? {
          var rest := Cascade(step.0, queue[1..] + step.1, fuel - 1).value;
          RxLowAppend(step.1, rest.1);
          assert !RxLow(step.1) by {
            assert forall i :: 0 <= i < |step.1| ==> step.1[i].target in net[queue[0].target].1;
          }
        }
      }
    }
  }

  /** A press of a network with no wire to `rx` never reports it. */
  lemma PushButtonNoRx(net: Network, fuel: nat)
    requires NoRx(net)
    ensures PushButton(net, fuel).Ok? ==> !PushButton(net, fuel).value.rx && NoRx(PushButton(net, fuel).value.net)
  {
    CascadeNoRx(net, [Button], fuel);
    CascadeKeepsWiring(net, [Button], fuel);
  }

  /** One line of the puzzle input: `%a -> b, c`, `&a -> b` or
      `broadcaster -> a, b`. */
  datatype Decl = Decl(name: Name, init: Module, targets: seq<Name>)

  /** The parsing closure of `Network::parse`. The split on `" -> "` is
      unwrapped, so a line without it panics; a name with neither prefix
      that is not `broadcaster` reaches `unreachable!()`. Targets are the
      comma-separated pieces, each trimmed. New modules remember nothing. */
  function ParseDecl(line: string): (r: Result<Decl>)
    ensures r.Ok? ==> |r.value.targets| >= 1
    ensures r.Ok? ==> r.value.init == Broadcaster || r.value.init == FlipFlop(Off) || r.value.init == Conjunction(map[])
  {
    match Text.SplitOnceStr(line, " -> ")
    case None => Err(Panic("called `Option::unwrap()` on a `None` value"))
    case Some((name, rest)) => DeclOf(name, ParseTargets(rest))
  }

  /** The module the part before the arrow stands for: `%` a flip-flop
      that is off, `&` a conjunction that remembers nothing, and
      `broadcaster` the broadcaster. */
  function DeclOf(name: string, targets: seq<Name>): (r: Result<Decl>)
    ensures r.Ok? <==> (|name| >= 1 && (name[0] == '%' || name[0] == '&')) || name == BroadcasterName
    ensures r.Ok? ==> r.value.targets == targets
    ensures r.Ok? && name[0] == '%' ==> r.value.init == FlipFlop(Off) && name == "%" + r.value.name
    ensures r.Ok? && name[0] == '&' ==> r.value.init == Conjunction(map[]) && name == "&" + r.value.name
    ensures r.Ok? && name == BroadcasterName ==> r.value == Decl(BroadcasterName, Broadcaster, targets)
  {
    match Text.StripPrefix(name, "%")
    case Some(n) => Ok(Decl(n, FlipFlop(Off), targets))
    case None =>
      match Text.StripPrefix(name, "&")
      case Some(n) => Ok(Decl(n, Conjunction(map[]), targets))
      case None =>
        if name == BroadcasterName then Ok(Decl(BroadcasterName, Broadcaster, targets))
        else Err(Unreachable)
  }

  /** The comma-separated targets, each trimmed. */
  function ParseTargets(rest: string): (r: seq<Name>)
    ensures |r| >= 1
    ensures forall i :: 0 <= i < |r| ==> ',' !in r[i]
  {
    var pieces := Text.Split(rest, ',');
    seq(|pieces|, i requires 0 <= i < |pieces| => TrimPiece(pieces[i]))
  }

  /** Trimming keeps a piece free of commas. */
  function TrimPiece(piece: string): (r: Name)
    requires ',' !in piece
    ensures ',' !in r
    ensures exists i :: Text.PaddedAt(piece, r, i)
  {
    var r := Text.Trim(piece);
    ghost var i :| Text.PaddedAt(piece, r, i);
    assert forall j :: 0 <= j < |r| ==> r[j] == piece[i + j];
    r
  }

  /** A declaration written as the puzzle writes it: kind prefix, name,
      arrow, and targets separated by `", "`. */
  function ShowDecl(d: Decl): string {
    var prefix := match d.init
      case FlipFlop(_) => "%"
      case Conjunction(_) => "&"
      case Broadcaster => "";
    prefix + d.name + " -> " + Text.Join(SpaceAfterComma(d.targets), ',')
  }

  /** Every target after the first with one space in front. */
  function SpaceAfterComma(ts: seq<Name>): (r: seq<string>)
    ensures |r| == |ts|
  {
    seq(|ts|, i requires 0 <= i < |ts| => if i == 0 then ts[i] else " " + ts[i])
  }

  /** A declaration the parser can read back: a name without spaces, at
      least one target, and targets without commas or surrounding
      whitespace; a new module, named `broadcaster` when it is the
      broadcaster. */
  predicate Readable(d: Decl) {
    ' ' !in d.name && |d.targets| >= 1
    && (forall i :: 0 <= i < |d.targets| ==> ',' !in d.targets[i] && Text.Trimmed(d.targets[i]))
    && match d.init
       case FlipFlop(s) => s == Off
       case Conjunction(mem) => mem == map[]
       case Broadcaster => d.name == BroadcasterName
  }

  /** Reading targets back from `", "`-separated text gives them back. */
  lemma ParseShowTargets(ts: seq<Name>)
    requires |ts| >= 1
    requires forall i :: 0 <= i < |ts| ==> ',' !in ts[i] && Text.Trimmed(ts[i])
    ensures ParseTargets(Text.Join(SpaceAfterComma(ts), ',')) == ts
  {
    var padded := SpaceAfterComma(ts);
    forall i | 0 <= i < |padded|
      ensures ',' !in padded[i]
    {
      if i > 0 {
        assert padded[i] == [' '] + ts[i];
      }
    }
    Text.SplitJoin(padded, ',');
    var pieces := Text.Split(Text.Join(padded, ','), ',');
    forall i | 0 <= i < |pieces|
      ensures Text.Trim(pieces[i]) == ts[i]
    {
      if i == 0 {
        Text.TrimPadded([], ts[i], []);
        assert [] + ts[i] + [] == ts[i];
      } else {
        Text.TrimLeading([' '], ts[i]);
      }
    }
  }

  /** Parsing a written declaration gives it back. */
  lemma ParseShowDecl(d: Decl)
    requires Readable(d)
    ensures ParseDecl(ShowDecl(d)) == Ok(d)
  {
    var prefix := match d.init
      case FlipFlop(_) => "%"
      case Conjunction(_) => "&"
      case Broadcaster => "";
    var rest := Text.Join(SpaceAfterComma(d.targets), ',');
    assert ShowDecl(d) == (prefix + d.name) + " -> " + rest;
    assert ' ' !in prefix + d.name by {
      assert forall j :: 0 <= j < |prefix + d.name| && j >= |prefix| ==> (prefix + d.name)[j] == d.name[j - |prefix|];
    }
    Text.SplitOnceStrAt(prefix + d.name, " -> ", rest);
    ParseShowTargets(d.targets);
    assert ParseDecl(ShowDecl(d)) == DeclOf(prefix + d.name, d.targets);
    DeclOfShown(d, prefix);
  }

  lemma DeclOfShown(d: Decl, prefix: string)
    requires Readable(d)
    requires prefix == match d.init case FlipFlop(_) => "%" case Conjunction(_) => "&" case Broadcaster => ""
    ensures DeclOf(prefix + d.name, d.targets) == Ok(d)
  {
    match d.init
    case FlipFlop(_) =>
      assert Text.StripPrefix(prefix + d.name, "%") == Some(d.name);
    case Conjunction(_) =>
      assert Text.StripPrefix(prefix + d.name, "%") == None;
      assert Text.StripPrefix(prefix + d.name, "&") == Some(d.name);
    case Broadcaster =>
      assert prefix + d.name == d.name;
      assert d.name[..1] == "b";
      assert Text.StripPrefix(d.name, "%") == None;
      assert Text.StripPrefix(d.name, "&") == None;
  }

  /** Collecting into the module map: a later line for the same name
      replaces an earlier one. */
  function ToMap(decls: seq<Decl>): (r: Network)
    ensures r.Keys == set i | 0 <= i < |decls| :: decls[i].name
  {
    if decls == [] then map[]
    else
      var last := decls[|decls| - 1];
      var front := ToMap(decls[..|decls| - 1]);
      assert forall i :: 0 <= i < |decls| - 1 ==> decls[..|decls| - 1][i] == decls[i];
      front[last.name := (last.init, last.targets)]
  }

  /** The declaration that stays for each name is its last one. */
  lemma {:induction false} ToMapLast(decls: seq<Decl>, i: nat)
    requires i < |decls|
    requires forall j :: i < j < |decls| ==> decls[j].name != decls[i].name
    ensures ToMap(decls)[decls[i].name] == (decls[i].init, decls[i].targets)
    decreases |decls|
  {
    if i < |decls| - 1 {
      var front := decls[..|decls| - 1];
      assert front[i] == decls[i];
      ToMapLast(front, i);
    }
  }

  /** Every entry of the map comes from some declaration. */
  lemma {:induction false} ToMapFrom(decls: seq<Decl>, k: Name)
    requires k in ToMap(decls)
    ensures exists i :: 0 <= i < |decls| && ToMap(decls)[k] == (decls[i].init, decls[i].targets)
    decreases |decls|
  {
    var last := decls[|decls| - 1];
    if k != last.name {
      var front := decls[..|decls| - 1];
      ToMapFrom(front, k);
      var i :| 0 <= i < |front| && ToMap(front)[k] == (front[i].init, front[i].targets);
      assert front[i] == decls[i];
    } else {
      assert ToMap(decls)[k] == (decls[|decls| - 1].init, decls[|decls| - 1].targets);
    }
  }

  /** The modules that send to `name`: the `rev` map of `Network::parse`. */
  function Feeders(net: Network, name: Name): (r: set<Name>)
    ensures forall s :: s in r <==> s in net && name in net[s].1
  {
    set s | s in net && name in net[s].1
  }

  /** Every conjunction remembers exactly the modules that send to it. */
  predicate Wired(net: Network) {
    forall k :: k in net && net[k].0.Conjunction? ==> net[k].0.memory.Keys == Feeders(net, k)
  }

  /** The second half of `Network::parse`: each module is told its
      inputs. */
  function Wire(net: Network): (r: Network)
    ensures SameWiring(net, r)
  {
    map k | k in net :: (KnowInputs(net[k].0, Feeders(net, k)), net[k].1)
  }

  /** A flip-flop is off and a conjunction remembers nothing. */
  predicate Fresh(net: Network) {
    forall k :: k in net ==> net[k].0 == Broadcaster || net[k].0 == FlipFlop(Off) || net[k].0 == Conjunction(map[])
  }

  /** After wiring, each conjunction remembers a low pulse from each of its
      inputs and nothing else. */
  lemma WireFresh(net: Network)
    requires Fresh(net)
    ensures Wired(Wire(net))
    ensures forall k :: k in Wire(net) && Wire(net)[k].0.Conjunction? ==>
              forall s :: s in Wire(net)[k].0.memory ==> Wire(net)[k].0.memory[s] == Low
  {
    var w := Wire(net);
    forall k | k in w
      ensures Feeders(w, k) == Feeders(net, k)
    {
    }
  }

  /** Each line's declaration, or the way it fails. */
  function ParseLines(lines: seq<string>): (r: seq<Result<Decl>>)
    ensures |r| == |lines| && forall i :: 0 <= i < |lines| ==> r[i] == ParseDecl(lines[i])
  {
    seq(|lines|, i requires 0 <= i < |lines| => ParseDecl(lines[i]))
  }

  /** `Network::parse`: the lines are parsed in order and the first line
      that fails stops the parse, as the panic in the closure does; then
      each module is told its inputs. */
  function ParseNetwork(lines: seq<string>): (r: Result<Network>)
    ensures r.Ok? <==> forall i :: 0 <= i < |lines| ==> ParseDecl(lines[i]).Ok?
  {
    var decls :- Collect(ParseLines(lines));
    Ok(Wire(ToMap(decls)))
  }

  /** A parsed network is wired, with every flip-flop off and every
      conjunction remembering a low pulse from each of its inputs. */
  lemma ParseNetworkWired(lines: seq<string>)
    requires ParseNetwork(lines).Ok?
    ensures Wired(ParseNetwork(lines).value)
    ensures forall k :: k in ParseNetwork(lines).value ==>
      var m := ParseNetwork(lines).value[k].0;
      m.Broadcaster? || m == FlipFlop(Off) || (m.Conjunction? && forall s :: s in m.memory ==> m.memory[s] == Low)
  {
    var parsed := ParseLines(lines);
    var decls := Collect(parsed).value;
    var net := ToMap(decls);
    assert Fresh(net) by {
      forall k | k in net
        ensures net[k].0 == Broadcaster || net[k].0 == FlipFlop(Off) || net[k].0 == Conjunction(map[])
      {
        ToMapFrom(decls, k);
        var i :| 0 <= i < |decls| && net[k] == (decls[i].init, decls[i].targets);
        assert parsed[i] == Ok(decls[i]);
      }
    }
    WireFresh(net);
  }

  /** Every signal with a sender comes along one of that sender's wires. */
  predicate Fed(net: Network, queue: seq<Signal>) {
    forall i :: 0 <= i < |queue| && queue[i].source.Some? ==>
      queue[i].source.value in net && queue[i].target in net[queue[i].source.value].1
  }

  lemma FeedersSame(a: Network, b: Network, k: Name)
    requires SameWiring(a, b)
    ensures Feeders(a, k) == Feeders(b, k)
  {
  }

  /** One signal handled keeps the wiring and the queue fed. */
  lemma WiredStep(net: Network, queue: seq<Signal>)
    requires queue != [] && Wired(net) && Fed(net, queue) && queue[0].target in net && Handle(net, queue[0]).Ok?
    ensures var step := Handle(net, queue[0]).value;
      Wired(step.0) && Fed(step.0, queue[1..] + step.1)
  {
    var sig := queue[0];
    var step := Handle(net, sig).value;
    assert SameWiring(net, step.0);
    forall k | k in step.0 && step.0[k].0.Conjunction?
      ensures step.0[k].0.memory.Keys == Feeders(step.0, k)
    {
      FeedersSame(net, step.0, k);
    }
    var q := queue[1..] + step.1;
    forall i | 0 <= i < |q| && q[i].source.Some?
      ensures q[i].source.value in step.0 && q[i].target in step.0[q[i].source.value].1
    {
      if i < |queue| - 1 {
        assert q[i] == queue[i + 1];
      } else {
        assert q[i] == step.1[i - (|queue| - 1)];
      }
    }
  }

  lemma FedTail(net: Network, queue: seq<Signal>)
    requires queue != [] && Fed(net, queue)
    ensures Fed(net, queue[1..])
  {
    assert forall i :: 0 <= i < |queue| - 1 ==> queue[1..][i] == queue[i + 1];
  }

  /** A conjunction only ever hears from its own inputs, so it keeps
      remembering exactly them. */
  lemma {:induction false} CascadeWired(net: Network, queue: seq<Signal>, fuel: nat)
    requires Wired(net) && Fed(net, queue)
    ensures Cascade(net, queue, fuel).Ok? ==> Wired(Cascade(net, queue, fuel).value.0)
    decreases fuel
  {
    if queue != [] && fuel > 0 {
      if queue[0].target !in net {
        FedTail(net, queue);
        CascadeWired(net, queue[1..], fuel - 1);
      } else if Handle(net, queue[0]).Ok? {
        var step := Handle(net, queue[0]).value;
        WiredStep(net, queue);
        CascadeWired(step.0, queue[1..] + step.1, fuel - 1);
      }
    }
  }

  /** A press keeps a network wired. */
  lemma PushButtonWired(net: Network, fuel: nat)
    requires Wired(net)
    ensures PushButton(net, fuel).Ok? ==> Wired(PushButton(net, fuel).value.net)
  {
    CascadeWired(net, [Button], fuel);
  }

  /** `n` presses in a row, each starting from the network the last one
      left, with the low and high counts summed. */
  function Presses(net: Network, n: nat, fuel: nat): (r: Result<(Network, nat, nat)>)
    ensures r.Ok? ==> r.value.1 >= n
    decreases n
  {
    if n == 0 then Ok((net, 0, 0))
    else
      var p :- PushButton(net, fuel);
      var rest :- Presses(p.net, n - 1, fuel);
      Ok((rest.0, p.low + rest.1, p.high + rest.2))
  }

  /** `b` more presses after the outcome `first`, counts added up. */
  function PressMore(first: Result<(Network, nat, nat)>, b: nat, fuel: nat): Result<(Network, nat, nat)> {
    var (mid, l1, h1) :- first;
    var (end, l2, h2) :- Presses(mid, b, fuel);
    Ok((end, l1 + l2, h1 + h2))
  }

  /** Pressing `a` times and then `b` times is pressing `a + b` times. */
  lemma {:induction false} PressesAdd(net: Network, a: nat, b: nat, fuel: nat)
    ensures Presses(net, a + b, fuel) == PressMore(Presses(net, a, fuel), b, fuel)
    decreases a
  {
    if a > 0 {
      var p := PushButton(net, fuel);
      if p.Ok? {
        PressesAdd(p.value.net, a - 1, b, fuel);
        assert a + b - 1 == (a - 1) + b;
      }
    }
  }

  lemma MulSucc(k: nat, x: nat)
    requires k > 0
    ensures k * x == x + (k - 1) * x
  {
  }

  /** A network that is back where it started after `n` presses repeats
      itself: `k * n` presses count `k` times as many pulses. */
  lemma {:induction false} PressesCycle(net: Network, n: nat, k: nat, fuel: nat, low: nat, high: nat)
    requires Presses(net, n, fuel) == Ok((net, low, high))
    ensures Presses(net, k * n, fuel) == Ok((net, k * low, k * high))
    decreases k
  {
    if k > 0 {
      PressesCycle(net, n, k - 1, fuel, low, high);
      MulSucc(k, n);
      MulSucc(k, low);
      MulSucc(k, high);
      PressesAdd(net, n, (k - 1) * n, fuel);
    } else {
      assert k * n == 0 && k * low == 0 && k * high == 0;
    }
  }

  /** `solve_first`: a thousand presses, the low count times the high
      count. SolveFirstCycle states the answer of a network that repeats. */
  function SolveFirst(lines: seq<string>, fuel: nat): (r: Result<int>)
    ensures ParseNetwork(lines).Err? ==> r == Err(ParseNetwork(lines).error)
    ensures ParseNetwork(lines).Ok? ==> (r.Ok? <==> Presses(ParseNetwork(lines).value, 1000, fuel).Ok?)
  {
    var net :- ParseNetwork(lines);
    var counts :- Presses(net, 1000, fuel);
    Ok(counts.1 * counts.2)
  }

  /** A parsed network that is back where it started after `n` presses,
      `n` a divisor of a thousand, answers from those `n` presses alone. */
  lemma SolveFirstCycle(lines: seq<string>, fuel: nat, n: nat, low: nat, high: nat)
    requires ParseNetwork(lines).Ok? && n > 0 && 1000 % n == 0
    requires Presses(ParseNetwork(lines).value, n, fuel) == Ok((ParseNetwork(lines).value, low, high))
    ensures SolveFirst(lines, fuel) == Ok((1000 / n) * low * ((1000 / n) * high))
  {
    var net := ParseNetwork(lines).value;
    var k := 1000 / n;
    assert k * n == 1000;
    PressesCycle(net, n, k, fuel, low, high);
  }

  /** The network after `k` presses. */
  function After(net: Network, k: nat, fuel: nat): (r: Result<Network>)
    decreases k
  {
    if k == 0 then Ok(net)
    else
      var p :- PushButton(net, fuel);
      After(p.net, k - 1, fuel)
  }

  /** Press `k + 1` is the first to send a low pulse to `rx`: in the
      `take_while`, presses 1 to `k` pass and then the count stops at `k`. */
  predicate FirstRx(net: Network, k: nat, fuel: nat) {
    (forall j :: 0 <= j <= k ==> After(net, j, fuel).Ok? && PushButton(After(net, j, fuel).value, fuel).Ok?)
    && (forall j :: 0 <= j < k ==> !PushButton(After(net, j, fuel).value, fuel).value.rx)
    && PushButton(After(net, k, fuel).value, fuel).value.rx
  }

  /** The `take_while(...).count()` of `solve_second`: presses until one
      reports `rx`. The program presses for ever; at most `budget` presses
      are modelled and running out is reported as `Hang`. */
  function UntilRx(net: Network, budget: nat, fuel: nat): (r: Result<nat>)
    ensures r.Ok? ==> r.value < budget
    decreases budget
  {
    if budget == 0 then Err(Hang)
    else
      var p :- PushButton(net, fuel);
      if p.rx then Ok(0)
      else
        var n :- UntilRx(p.net, budget - 1, fuel);
        Ok(n + 1)
  }

  /** The count is the number of presses before the first that reaches
      `rx`. */
  lemma {:induction false} UntilRxFirst(net: Network, budget: nat, fuel: nat)
    requires UntilRx(net, budget, fuel).Ok?
    ensures FirstRx(net, UntilRx(net, budget, fuel).value, fuel)
    decreases budget
  {
    var p := PushButton(net, fuel).value;
    var k := UntilRx(net, budget, fuel).value;
    if !p.rx {
      UntilRxFirst(p.net, budget - 1, fuel);
      forall j | 1 <= j <= k
        ensures After(net, j, fuel) == After(p.net, j - 1, fuel)
      {
      }
    }
  }

  /** Conversely, when press `k + 1` is the first to reach `rx` and the
      budget allows it, the count is `k`. */
  lemma {:induction false} FirstRxUntil(net: Network, k: nat, budget: nat, fuel: nat)
    requires FirstRx(net, k, fuel) && k < budget
    ensures UntilRx(net, budget, fuel) == Ok(k)
    decreases k
  {
    assert After(net, 0, fuel) == Ok(net);
    var p := PushButton(net, fuel).value;
    if k > 0 {
      forall j | 0 <= j <= k - 1
        ensures After(p.net, j, fuel) == After(net, j + 1, fuel)
      {
      }
      FirstRxUntil(p.net, k - 1, budget - 1, fuel);
    }
  }

  /** With no wire to `rx` no press ever reaches it, and the count never
      ends. */
  lemma {:induction false} UntilRxNoRx(net: Network, budget: nat, fuel: nat)
    requires NoRx(net)
    ensures UntilRx(net, budget, fuel).Err?
    decreases budget
  {
    if budget > 0 {
      PushButtonNoRx(net, fuel);
      if PushButton(net, fuel).Ok? {
        UntilRxNoRx(PushButton(net, fuel).value.net, budget - 1, fuel);
      }
    }
  }

  /** `solve_second`. */
  function SolveSecond(lines: seq<string>, budget: nat, fuel: nat): (r: Result<nat>)
    ensures r.Ok? ==> ParseNetwork(lines).Ok? && FirstRx(ParseNetwork(lines).value, r.value, fuel)
  {
    var net :- ParseNetwork(lines);
    var r := UntilRx(net, budget, fuel);
    if r.Ok? then UntilRxFirst(net, budget, fuel); r else r
  }
}
