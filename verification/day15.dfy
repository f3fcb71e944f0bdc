/** Day 15: the HASH algorithm, the initialization sequence it checks, and
    the 256 lens boxes the sequence's steps fill and empty. */
module Day15 {
  import opened Wrappers
  import Text

  const UnwrapNone := Panic("called `Option::unwrap()` on a `None` value")
  const UnwrapErr := Panic("called `Result::unwrap()` on an `Err` value")

  /** The number of boxes, `u8::MAX + 1`. */
  const Boxes := 256

  // The HASH algorithm.

  /** One byte of `Hasher::write`: add its code, multiply by 17, keep the
      remainder modulo 256. */
  function Step(state: nat, c: char): (r: nat)
    ensures r < Boxes
  {
    ((state + c as nat) * 17) % 256
  }

  /** `Hasher::write`: the bytes folded into the state from the first on. */
  function Write(state: nat, s: string): (r: nat)
    ensures s == [] ==> r == state
    ensures s != [] ==> r < Boxes
    decreases |s|
  {
    if s == [] then state else Write(Step(state, s[0]), s[1..])
  }

  /** `hash`: a fresh hasher (state 0) written once. */
  function Hash(s: string): (h: nat)
    ensures h < Boxes
    ensures s == [] ==> h == 0
  {
    Write(0, s)
  }

  /** The HASH algorithm by its last byte: the hash of the text without it,
      stepped by that byte. */
  function HashSpec(s: string): nat
    decreases |s|
  {
    if s == [] then 0 else Step(HashSpec(s[..|s| - 1]), s[|s| - 1])
  }

  /** Writing a text in two pieces is writing it at once. */
  lemma {:induction false} WriteAppend(state: nat, a: string, b: string)
    ensures Write(state, a + b) == Write(Write(state, a), b)
    decreases |a|
  {
    if a == [] {
      assert a + b == b;
    } else {
      assert (a + b)[1..] == a[1..] + b;
      WriteAppend(Step(state, a[0]), a[1..], b);
    }
  }

  /** The hasher agrees with the reference definition. */
  lemma {:induction false} HashByLast(s: string)
    ensures Hash(s) == HashSpec(s)
    decreases |s|
  {
    if s != [] {
      var init := s[..|s| - 1];
      assert s == init + [s[|s| - 1]];
      WriteAppend(0, init, [s[|s| - 1]]);
      HashByLast(init);
    }
  }

  /** The example the puzzle works through by hand. */
  lemma HashExample()
    ensures Hash("HASH") == 52
  {
    var s := "HASH";
    assert Step(0, 'H') == 200 && Step(200, 'A') == 153;
    assert Step(153, 'S') == 172 && Step(172, 'H') == 52;
    assert s[1..] == "ASH" && s[1..][1..] == "SH" && s[1..][1..][1..] == "H";
    assert Write(172, "H") == 52;
    assert Write(153, "SH") == 52;
    assert Write(200, "ASH") == 52;
  }

  // Part one.

  /** The hashes of the steps, in order. */
  function Hashes(steps: seq<string>): (hs: seq<nat>)
    ensures |hs| == |steps| && forall i :: 0 <= i < |steps| ==> hs[i] == Hash(steps[i])
  {
    seq(|steps|, i requires 0 <= i < |steps| => Hash(steps[i]))
  }

  /** A sum of hashes is below 256 per step. */
  lemma {:induction false} HashesBound(steps: seq<string>)
    ensures Sum(Hashes(steps)) < Boxes * |steps| || steps == []
    decreases |steps|
  {
    if steps != [] {
      HashesBound(steps[1..]);
      assert Hashes(steps)[1..] == Hashes(steps[1..]);
    }
  }

  /** `solve_first`: the first line (the program unwraps it) split at commas,
      each step hashed, the hashes summed. */
  function SolveFirst(lines: seq<string>): (r: Result<nat>)
    ensures lines == [] <==> r == Err(UnwrapNone)
    ensures r.Ok? ==> r.value < Boxes * |Text.Split(lines[0], ',')|
  {
    if lines == [] then Err(UnwrapNone)
    else
      var steps := Text.Split(lines[0], ',');
      HashesBound(steps);
      Ok(Sum(Hashes(steps)))
  }

  /** A line of comma-free steps joined by commas sums the steps' hashes. */
  lemma SolveFirstSteps(steps: seq<string>, rest: seq<string>)
    requires |steps| >= 1 && forall i :: 0 <= i < |steps| ==> ',' !in steps[i]
    ensures SolveFirst([Text.Join(steps, ',')] + rest) == Ok(Sum(Hashes(steps)))
  {
    Text.SplitJoin(steps, ',');
  }

  // Steps.

  datatype Action = Remove(name: string) | Set(name: string, focal: nat)

  predicate IsMarker(c: char) { c == '=' || c == '-' }

  predicate NoMarker(s: string) { forall i :: 0 <= i < |s| ==> !IsMarker(s[i]) }

  /** `str::find` for the first `=` or `-`. */
  function FindMarker(s: string): (r: Option<nat>)
    ensures r.None? <==> NoMarker(s)
    ensures r.Some? ==> r.value < |s| && IsMarker(s[r.value]) && NoMarker(s[..r.value])
  {
    if s == [] then None
    else if IsMarker(s[0]) then Some(0)
    else
      match FindMarker(s[1..])
      case None => None
      case Some(i) =>
        assert forall k :: 0 < k < |s| ==> s[k] == s[1..][k - 1];
        Some(i + 1)
  }

  /** `Action::from_str`: the label is everything before the first marker;
      after `=` the rest must be a byte value, after `-` it is ignored. A step
      without a marker or with a bad value panics. */
  function ParseAction(s: string): (r: Result<Action>)
    ensures r.Err? <==> (NoMarker(s) ||
      var i := FindMarker(s).value; s[i] == '=' && Text.ParseByte(s[i + 1..]).Err?)
    ensures r.Err? ==> r.error == if NoMarker(s) then UnwrapNone else UnwrapErr
    ensures r.Ok? ==> var n := |r.value.name|;
      n < |s| && s[..n] == r.value.name && NoMarker(r.value.name) &&
      s[n] == (if r.value.Set? then '=' else '-')
    ensures r.Ok? && r.value.Set? ==> Text.ParseByte(s[|r.value.name| + 1..]) == Ok(r.value.focal)
  {
    match FindMarker(s)
    case None => Err(UnwrapNone)
    case Some(i) =>
      if s[i] == '=' then
        match Text.ParseByte(s[i + 1..])
        case Ok(v) => Ok(Set(s[..i], v))
        case Err(_) => Err(UnwrapErr)
      else Ok(Remove(s[..i]))
  }

  /** How a step is written in the initialization sequence. */
  function ShowAction(a: Action): string {
    match a
    case Remove(l) => l + "-"
    case Set(l, v) => l + "=" + Text.Show(v)
  }

  /** Parsing reads back every step whose label has no marker and whose
      focal length fits in a byte. */
  lemma ParseShowAction(a: Action)
    requires NoMarker(a.name) && (a.Set? ==> a.focal < 256)
    ensures ParseAction(ShowAction(a)) == Ok(a)
  {
    var s := ShowAction(a);
    var n := |a.name|;
    assert s[..n] == a.name;
    assert FindMarker(s) == Some(n) by {
      FindMarkerAt(s, n);
    }
    if a.Set? {
      assert s[n + 1..] == Text.Show(a.focal);
      Text.ParseShow(a.focal);
    }
  }

  lemma FindMarkerAt(s: string, n: nat)
    requires n < |s| && IsMarker(s[n]) && NoMarker(s[..n])
    ensures FindMarker(s) == Some(n)
  {
    match FindMarker(s)
    case None =>
    case Some(i) =>
      if i < n {
        assert s[..n][i] == s[i];
      }
  }

  /** Whatever follows a `-` is ignored. */
  lemma RemoveIgnoresRest(name: string, rest: string)
    requires NoMarker(name)
    ensures ParseAction(name + "-" + rest) == Ok(Remove(name))
  {
    var s := name + "-" + rest;
    assert s[..|name|] == name;
    FindMarkerAt(s, |name|);
  }

  // The boxes.

  type Lens = (string, nat)

  /** The first lens labelled `name`, by position. */
  function Position(box: seq<Lens>, name: string): (r: Option<nat>)
    ensures r.None? <==> forall k :: 0 <= k < |box| ==> box[k].0 != name
    ensures r.Some? ==> r.value < |box| && box[r.value].0 == name &&
                        forall k :: 0 <= k < r.value ==> box[k].0 != name
  {
    if box == [] then None
    else if box[0].0 == name then Some(0)
    else
      match Position(box[1..], name)
      case None => None
      case Some(i) => Some(i + 1)
  }

  /** The focal length of the first lens labelled `name`. */
  function Find(box: seq<Lens>, name: string): (r: Option<nat>)
    ensures r.Some? <==> Position(box, name).Some?
    ensures r.Some? ==> r.value == box[Position(box, name).value].1
  {
    match Position(box, name)
    case None => None
    case Some(i) => Some(box[i].1)
  }

  /** `Vec::retain` keeping the lenses with another label. */
  function Retain(box: seq<Lens>, name: string): (r: seq<Lens>)
    ensures |r| <= |box|
    ensures forall k :: 0 <= k < |r| ==> r[k].0 != name && r[k] in box
    ensures forall k :: 0 <= k < |box| && box[k].0 != name ==> box[k] in r
  {
    if box == [] then []
    else if box[0].0 == name then Retain(box[1..], name)
    else [box[0]] + Retain(box[1..], name)
  }

  /** `apply_action_to_hashmap` on box `hash(name)`, every other box left
      alone: `Remove` drops the lenses with the label, `Set` overwrites the
      first such lens or appends a new one at the end. */
  function Apply(m: seq<seq<Lens>>, a: Action): (r: seq<seq<Lens>>)
    requires |m| == Boxes
    ensures |r| == Boxes
    ensures forall b :: 0 <= b < Boxes && b != Hash(a.name) ==> r[b] == m[b]
  {
    var h := Hash(a.name);
    match a
    case Remove(l) => m[h := Retain(m[h], l)]
    case Set(l, v) =>
      match Position(m[h], l)
      case Some(i) => m[h := m[h][i := (l, v)]]
      case None => m[h := m[h] + [(l, v)]]
  }

  /** Labels sit in the box their hash names, at most once in it. */
  predicate Valid(m: seq<seq<Lens>>) {
    |m| == Boxes &&
    (forall b, k :: 0 <= b < |m| && 0 <= k < |m[b]| ==> Hash(m[b][k].0) == b) &&
    (forall b :: 0 <= b < |m| ==> Distinct(m[b]))
  }

  /** The focal length the boxes hold for `name`. */
  function Lookup(m: seq<seq<Lens>>, name: string): Option<nat>
    requires |m| == Boxes
  {
    Find(m[Hash(name)], name)
  }

  /** `HashMap::default`: 256 empty boxes. */
  const Empty: seq<seq<Lens>> := seq(Boxes, _ => [])

  lemma EmptyValid(name: string)
    ensures Valid(Empty) && Lookup(Empty, name) == None
  {
  }

  lemma {:induction false} FindRetain(box: seq<Lens>, name: string, k: string)
    requires k != name
    ensures Find(Retain(box, name), k) == Find(box, k)
    decreases |box|
  {
    if box != [] {
      var t := box[1..];
      FindRetain(t, name, k);
      assert box == [box[0]] + t;
      FindCons(box[0], t, k);
      if box[0].0 != name {
        FindCons(box[0], Retain(t, name), k);
      }
    }
  }

  /** Finding in a box by its first lens. */
  lemma FindCons(x: Lens, t: seq<Lens>, k: string)
    ensures Find([x] + t, k) == if x.0 == k then Some(x.1) else Find(t, k)
  {
    assert ([x] + t)[1..] == t;
  }

  /** No label occurs twice in the box. */
  predicate Distinct(box: seq<Lens>) {
    forall j, k :: 0 <= j < k < |box| ==> box[j].0 != box[k].0
  }

  lemma {:induction false} RetainDistinct(box: seq<Lens>, name: string)
    requires Distinct(box)
    ensures Distinct(Retain(box, name))
    decreases |box|
  {
    if box != [] {
      var t := box[1..];
      assert box == [box[0]] + t;
      DistinctCons(box[0], t);
      RetainDistinct(t, name);
      if box[0].0 != name {
        var rt := Retain(t, name);
        forall k | 0 <= k < |rt| ensures rt[k].0 != box[0].0 {
          assert rt[k] in t;
        }
        DistinctCons(box[0], rt);
      }
    }
  }

  /** A box is distinct when its tail is and the first label is not in it. */
  lemma DistinctCons(x: Lens, t: seq<Lens>)
    ensures Distinct([x] + t) <==> Distinct(t) && forall k :: 0 <= k < |t| ==> t[k].0 != x.0
  {
    var b := [x] + t;
    if Distinct(t) && forall k :: 0 <= k < |t| ==> t[k].0 != x.0 {
      forall j, k | 0 <= j < k < |b| ensures b[j].0 != b[k].0 {
        if j > 0 {
          assert b[j] == t[j - 1] && b[k] == t[k - 1];
        }
      }
    }
    if Distinct(b) {
      forall j, k | 0 <= j < k < |t| ensures t[j].0 != t[k].0 {
        assert b[j + 1] == t[j] && b[k + 1] == t[k];
      }
      forall k | 0 <= k < |t| ensures t[k].0 != x.0 {
        assert b[k + 1] == t[k] && b[0] == x;
      }
    }
  }

  lemma FindOverwrite(box: seq<Lens>, name: string, v: nat, k: string)
    requires Position(box, name).Some?
    ensures var i := Position(box, name).value;
            Find(box[i := (name, v)], k) == if k == name then Some(v) else Find(box, k)
  {
    var i := Position(box, name).value;
    var nb := box[i := (name, v)];
    if k == name {
      PositionAt(nb, name, i);
    } else {
      match Position(box, k)
      case None =>
      case Some(j) =>
        PositionAt(nb, k, j);
    }
  }

  lemma PositionAt(box: seq<Lens>, name: string, i: nat)
    requires i < |box| && box[i].0 == name && forall k :: 0 <= k < i ==> box[k].0 != name
    ensures Position(box, name) == Some(i)
  {
  }

  lemma FindAppend(box: seq<Lens>, name: string, v: nat, k: string)
    requires Position(box, name).None?
    ensures Find(box + [(name, v)], k) == if k == name then Some(v) else Find(box, k)
  {
    var nb := box + [(name, v)];
    if k == name {
      PositionAt(nb, name, |box|);
    } else {
      match Position(box, k)
      case None =>
      case Some(j) =>
        PositionAt(nb, k, j);
    }
  }

  /** Each step keeps the boxes valid. */
  lemma ApplyValid(m: seq<seq<Lens>>, a: Action)
    requires Valid(m)
    ensures Valid(Apply(m, a))
  {
    var h := Hash(a.name);
    var r: seq<seq<Lens>> := Apply(m, a);
    match a
    case Remove(l) =>
      RetainDistinct(m[h], l);
      forall k | 0 <= k < |r[h]| ensures Hash(r[h][k].0) == h {
        assert r[h][k] in m[h];
      }
    case Set(l, v) =>
      match Position(m[h], l)
      case Some(i) =>
      case None =>
  }

  /** Read through the labels, a step is an update of a map: `Remove`
      forgets its label, `Set` binds it, and no other label changes. */
  lemma ApplyLookup(m: seq<seq<Lens>>, a: Action, k: string)
    requires |m| == Boxes
    ensures Lookup(Apply(m, a), k) ==
      if k != a.name then Lookup(m, k)
      else if a.Set? then Some(a.focal) else None
  {
    var h := Hash(a.name);
    if Hash(k) == h {
      match a
      case Remove(l) =>
        if k != l {
          FindRetain(m[h], l, k);
        } else {
          assert Position(Retain(m[h], l), l).None?;
        }
      case Set(l, v) =>
        match Position(m[h], l)
        case Some(i) =>
          FindOverwrite(m[h], l, v, k);
        case None =>
          FindAppend(m[h], l, v, k);
    }
  }

  /** Removing a lens closes the gap: the other lenses keep their order. */
  lemma RemoveKeepsOrder(m: seq<seq<Lens>>, front: seq<Lens>, l: string, v: nat, back: seq<Lens>)
    requires Valid(m) && m[Hash(l)] == front + [(l, v)] + back
    ensures Apply(m, Remove(l))[Hash(l)] == front + back
  {
    var box := m[Hash(l)];
    forall k | 0 <= k < |front| ensures front[k].0 != l {
      assert box[k] == front[k] && box[|front|] == (l, v);
    }
    forall k | 0 <= k < |back| ensures back[k].0 != l {
      assert box[|front| + 1 + k] == back[k] && box[|front|] == (l, v);
    }
    RetainOne(front, l, v, back);
  }

  lemma RetainOne(front: seq<Lens>, l: string, v: nat, back: seq<Lens>)
    requires forall k :: 0 <= k < |front| ==> front[k].0 != l
    requires forall k :: 0 <= k < |back| ==> back[k].0 != l
    ensures Retain(front + [(l, v)] + back, l) == front + back
  {
    var mid := front + [(l, v)];
    RetainNone(front, l);
    RetainNone(back, l);
    RetainConcat(front, [(l, v)], l);
    assert Retain([(l, v)], l) == [];
    assert Retain(mid, l) == front;
    RetainConcat(mid, back, l);
  }

  lemma {:induction false} RetainNone(box: seq<Lens>, l: string)
    requires forall k :: 0 <= k < |box| ==> box[k].0 != l
    ensures Retain(box, l) == box
    decreases |box|
  {
    if box != [] {
      RetainNone(box[1..], l);
      assert box == [box[0]] + box[1..];
    }
  }

  lemma {:induction false} RetainConcat(a: seq<Lens>, b: seq<Lens>, l: string)
    ensures Retain(a + b, l) == Retain(a, l) + Retain(b, l)
    decreases |a|
  {
    if a == [] {
      assert a + b == b;
    } else {
      assert (a + b)[1..] == a[1..] + b;
      RetainConcat(a[1..], b, l);
    }
  }

  /** Setting a label that is in its box replaces the lens where it stands;
      a new label goes to the back. */
  lemma SetPlacesLens(m: seq<seq<Lens>>, front: seq<Lens>, l: string, v0: nat, v: nat, back: seq<Lens>)
    requires Valid(m) && m[Hash(l)] == front + [(l, v0)] + back
    ensures Apply(m, Set(l, v))[Hash(l)] == front + [(l, v)] + back
  {
    var box := m[Hash(l)];
    forall k | 0 <= k < |front| ensures box[k].0 != l {
      assert box[k] == front[k] && box[|front|] == (l, v0);
    }
    PositionAt(box, l, |front|);
  }

  lemma SetAppendsLens(m: seq<seq<Lens>>, l: string, v: nat)
    requires |m| == Boxes && forall k :: 0 <= k < |m[Hash(l)]| ==> m[Hash(l)][k].0 != l
    ensures Apply(m, Set(l, v))[Hash(l)] == m[Hash(l)] + [(l, v)]
  {
  }

  // The initialization sequence.

  /** The `fold` of the steps over the boxes. */
  function Run(m: seq<seq<Lens>>, actions: seq<Action>): (r: seq<seq<Lens>>)
    requires |m| == Boxes
    ensures |r| == Boxes
    decreases |actions|
  {
    if actions == [] then m else Run(Apply(m, actions[0]), actions[1..])
  }

  /** The reference: what the steps leave for one label, read as a single
      register that `Set` writes and `Remove` clears. */
  function Latest(prev: Option<nat>, actions: seq<Action>, k: string): Option<nat>
    decreases |actions|
  {
    if actions == [] then prev
    else
      var a := actions[0];
      var now := if a.name != k then prev else if a.Set? then Some(a.focal) else None;
      Latest(now, actions[1..], k)
  }

  lemma {:induction false} RunValid(m: seq<seq<Lens>>, actions: seq<Action>)
    requires Valid(m)
    ensures Valid(Run(m, actions))
    decreases |actions|
  {
    if actions != [] {
      ApplyValid(m, actions[0]);
      RunValid(Apply(m, actions[0]), actions[1..]);
    }
  }

  /** The boxes hold for every label what the reference register does. */
  lemma {:induction false} RunLookup(m: seq<seq<Lens>>, actions: seq<Action>, k: string)
    requires |m| == Boxes
    ensures Lookup(Run(m, actions), k) == Latest(Lookup(m, k), actions, k)
    decreases |actions|
  {
    if actions != [] {
      ApplyLookup(m, actions[0], k);
      RunLookup(Apply(m, actions[0]), actions[1..], k);
    }
  }

  // Focusing power.

  /** The lenses of one box from slot `i` on, each its slot number (from 1)
      times its focal length. */
  function BoxPower(box: seq<Lens>, i: nat): nat
    requires i <= |box|
    decreases |box| - i
  {
    if i == |box| then 0 else (i + 1) * box[i].1 + BoxPower(box, i + 1)
  }

  /** The boxes from box `b` on, each box number (from 1) times its lenses'
      power. */
  function PowerFrom(m: seq<seq<Lens>>, b: nat): nat
    requires b <= |m|
    decreases |m| - b
  {
    if b == |m| then 0 else (b + 1) * BoxPower(m[b], 0) + PowerFrom(m, b + 1)
  }

  /** The focusing power of the whole line of boxes. */
  function Power(m: seq<seq<Lens>>): nat {
    PowerFrom(m, 0)
  }

  /** A lens put at the back of a box adds its slot times its focal length. */
  lemma {:induction false} PowerAppend(box: seq<Lens>, lens: Lens, i: nat)
    requires i <= |box|
    ensures BoxPower(box + [lens], i) == BoxPower(box, i) + (|box| + 1) * lens.1
    decreases |box| - i
  {
    if i < |box| {
      PowerAppend(box, lens, i + 1);
      assert (box + [lens])[i] == box[i];
    }
  }

  /** Overwriting the lens in slot `j` changes the power by the slot times
      the difference of the focal lengths. */
  lemma {:induction false} PowerOverwrite(box: seq<Lens>, j: nat, lens: Lens, i: nat)
    requires i <= |box| && j < |box|
    ensures BoxPower(box[j := lens], i) + (if i <= j then (j + 1) * box[j].1 else 0)
         == BoxPower(box, i) + (if i <= j then (j + 1) * lens.1 else 0)
    decreases |box| - i
  {
    if i < |box| {
      PowerOverwrite(box, j, lens, i + 1);
    }
  }

  /** The step strings of the line, each parsed. */
  function Parsed(steps: seq<string>): (rs: seq<Result<Action>>)
    ensures |rs| == |steps| && forall i :: 0 <= i < |steps| ==> rs[i] == ParseAction(steps[i])
  {
    seq(|steps|, i requires 0 <= i < |steps| => ParseAction(steps[i]))
  }

  /** `solve_second`: the first line split at commas, every step parsed (a
      bad step panics), the steps folded over the empty boxes, and the
      focusing power of the result. */
  function SolveSecond(lines: seq<string>): (r: Result<nat>)
    ensures lines == [] ==> r == Err(UnwrapNone)
    ensures lines != [] ==> (r.Ok? <==> AllOk(Parsed(Text.Split(lines[0], ','))))
    ensures r.Err? ==> r.error in {UnwrapNone, UnwrapErr}
  {
    if lines == [] then Err(UnwrapNone)
    else Focus(Parsed(Text.Split(lines[0], ',')))
  }

  /** The parsed steps run over the empty boxes, or the first parse error. */
  function Focus(rs: seq<Result<Action>>): (r: Result<nat>)
    ensures r.Ok? <==> AllOk(rs)
    ensures r.Err? ==> exists i :: 0 <= i < |rs| && AllOk(rs[..i]) && rs[i] == Err(r.error)
  {
    match Collect(rs)
    case Err(e) =>
      var i :| 0 <= i < |rs| && AllOk(rs[..i]) && rs[i] == Err(e);
      Err(e)
    case Ok(actions) => Ok(Power(Run(Empty, actions)))
  }

  /** On a line of well-formed steps the answer is the power of boxes that
      are valid and hold, for every label, what its last step left. */
  lemma SolveSecondBoxes(steps: seq<Action>, rest: seq<string>)
    requires |steps| >= 1
    requires forall i :: 0 <= i < |steps| ==> NoMarker(steps[i].name) && ',' !in steps[i].name
    requires forall i :: 0 <= i < |steps| ==> steps[i].Set? ==> steps[i].focal < 256
    ensures var m := Run(Empty, steps);
            SolveSecond([Text.Join(Shown(steps), ',')] + rest) == Ok(Power(m)) &&
            Valid(m) && forall k :: Lookup(m, k) == Latest(None, steps, k)
  {
    SolveSecondRuns(steps, rest);
    RunFromEmpty(steps);
  }

  /** A line of well-formed steps is read back as exactly those steps. */
  lemma SolveSecondRuns(steps: seq<Action>, rest: seq<string>)
    requires |steps| >= 1
    requires forall i :: 0 <= i < |steps| ==> NoMarker(steps[i].name) && ',' !in steps[i].name
    requires forall i :: 0 <= i < |steps| ==> steps[i].Set? ==> steps[i].focal < 256
    ensures SolveSecond([Text.Join(Shown(steps), ',')] + rest) == Ok(Power(Run(Empty, steps)))
  {
    SplitShown(steps);
    ParsedShown(steps);
  }

  /** Every step written out parses back to itself. */
  lemma ParsedShown(steps: seq<Action>)
    requires forall i :: 0 <= i < |steps| ==> NoMarker(steps[i].name)
    requires forall i :: 0 <= i < |steps| ==> steps[i].Set? ==> steps[i].focal < 256
    ensures AllOk(Parsed(Shown(steps))) && Values(Parsed(Shown(steps))) == steps
  {
    var rs := Parsed(Shown(steps));
    forall i | 0 <= i < |steps| ensures rs[i] == Ok(steps[i]) {
      ParseShowAction(steps[i]);
    }
    assert Values(rs) == steps;
  }

  /** Joining the steps with commas and splitting at commas gives them back. */
  lemma SplitShown(steps: seq<Action>)
    requires |steps| >= 1
    requires forall i :: 0 <= i < |steps| ==> ',' !in steps[i].name
    ensures Text.Split(Text.Join(Shown(steps), ','), ',') == Shown(steps)
  {
    var ss := Shown(steps);
    forall i | 0 <= i < |ss| ensures ',' !in ss[i] {
      ShowNoComma(steps[i]);
    }
    Text.SplitJoin(ss, ',');
  }

  /** Run from the empty boxes, the steps leave valid boxes holding, for
      every label, what its last step set. */
  lemma RunFromEmpty(steps: seq<Action>)
    ensures var m := Run(Empty, steps);
            Valid(m) && forall k :: Lookup(m, k) == Latest(None, steps, k)
  {
    EmptyValid([]);
    RunValid(Empty, steps);
    forall k ensures Lookup(Run(Empty, steps), k) == Latest(None, steps, k) {
      EmptyValid(k);
      RunLookup(Empty, steps, k);
    }
  }

  /** The steps as the line writes them. */
  function Shown(steps: seq<Action>): (ss: seq<string>)
    ensures |ss| == |steps| && forall i :: 0 <= i < |steps| ==> ss[i] == ShowAction(steps[i])
  {
    seq(|steps|, i requires 0 <= i < |steps| => ShowAction(steps[i]))
  }

  lemma ShowNoComma(a: Action)
    requires ',' !in a.name
    ensures ',' !in ShowAction(a)
  {
    if a.Set? {
      var d := Text.Show(a.focal);
      assert forall i :: 0 <= i < |d| ==> IsDigit(d[i]);
    }
  }
}
