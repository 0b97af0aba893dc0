/** The two-phase reset and respawn machine of the helper system.

    The physics, the poses written to the entity manager and the markers are left
    abstract; what is kept of the world is how many model entities carry which name. A
    requested removal takes effect at the end of the step, a created entity exists at
    once. A tracked name may be scoped: "outer::inner" is the model inner inside the
    model outer, whose entity is just called "inner". */
module ResetMachine {

  import opened Texts

  type Pose = seq<real>

  datatype Request = Request(name: string, pose: Pose)

  /** One phase done for one request: in which step, and whether it found its model. */
  datatype Done = Done(request: Request, step: nat, found: bool)

  /** The four queues, the existing entities, the number of unpaused steps made, and
      what each phase has done so far. */
  datatype System = System(
    reset: seq<Request>, postReset: seq<Request>, respawn: seq<Request>, postRespawn: seq<Request>,
    present: multiset<string>, now: nat,
    moved: seq<Done>, released: seq<Done>, removed: seq<Done>, created: seq<Done>)

  function Marks(requests: seq<Request>, step: nat, found: set<string>): (r: seq<Done>)
    ensures |r| == |requests|
    ensures forall i | 0 <= i < |r| :: r[i] == Done(requests[i], step, requests[i].name in found)
  {
    seq(|requests|, i requires 0 <= i < |requests| => Done(requests[i], step, requests[i].name in found))
  }

  function Names(requests: seq<Request>): (r: seq<string>)
    ensures |r| == |requests| && forall i | 0 <= i < |r| :: r[i] == requests[i].name
  {
    seq(|requests|, i requires 0 <= i < |requests| => requests[i].name)
  }

  /** The names of existing entities. */
  function Existing(present: multiset<string>): (r: set<string>)
    ensures forall n :: n in r <==> n in present
  {
    set n | n in present
  }

  // ---- scoped names ----

  /** The parts of a scoped name from position pos on. */
  function SplitFrom(s: string, pos: nat): (parts: seq<string>)
    requires pos <= |s|
    ensures parts != []
    decreases |s| - pos
  {
    var next := Find(s, "::", pos, |s|);
    if next < 0 then [s[pos..]] else [s[pos..next]] + SplitFrom(s, next + 2)
  }

  method ModelNameSplitter(s: string) returns (out: seq<string>)
    ensures out == SplitFrom(s, 0)
  {
    hide Find;
    out := [];
    var pos: nat := 0;
    var next := Find(s, "::", pos, |s|);
    while next >= 0
      invariant pos <= |s| && next == Find(s, "::", pos, |s|)
      invariant out + SplitFrom(s, pos) == SplitFrom(s, 0)
      decreases |s| - pos
    {
      Shift(out, s[pos..next], SplitFrom(s, next + 2));
      out := out + [s[pos..next]];
      pos := next + 2;
      next := Find(s, "::", pos, |s|);
    }
    out := out + [s[pos..]];
  }

  lemma Shift<T>(a: seq<T>, x: T, b: seq<T>)
    ensures a + ([x] + b) == (a + [x]) + b
  {
  }

  function Join(parts: seq<string>): string {
    if parts == [] then "" else if |parts| == 1 then parts[0] else parts[0] + "::" + Join(parts[1..])
  }

  /** Splitting loses nothing: the parts joined again are the name. */
  lemma {:induction false} SplitThenJoin(s: string, pos: nat)
    requires pos <= |s|
    ensures Join(SplitFrom(s, pos)) == s[pos..]
    decreases |s| - pos
  {
    hide Find, Join;
    var next := Find(s, "::", pos, |s|);
    if next >= 0 {
      SplitThenJoin(s, next + 2);
      JoinMore(s[pos..next], SplitFrom(s, next + 2));
      InThree(s, pos, next, next + 2);
    } else {
      JoinOne(s[pos..]);
    }
  }

  lemma JoinOne(part: string)
    ensures Join([part]) == part
  {
  }

  lemma JoinMore(part: string, rest: seq<string>)
    requires rest != []
    ensures Join([part] + rest) == part + "::" + Join(rest)
  {
    assert ([part] + rest)[1..] == rest;
  }

  lemma InThree(s: string, a: nat, b: nat, c: nat)
    requires a <= b <= c <= |s|
    ensures s[a..] == s[a..b] + s[b..c] + s[c..]
  {
  }

  predicate Nested(name: string) {
    Find(name, "::", 0, |name|) >= 0
  }

  /** The top-level model a name lies in. */
  function Base(name: string): string {
    SplitFrom(name, 0)[0]
  }

  /** What the entity of a named model is called. */
  function Leaf(name: string): string {
    var parts := SplitFrom(name, 0);
    parts[|parts| - 1]
  }

  lemma PlainName(name: string)
    requires !Nested(name)
    ensures Base(name) == Leaf(name) == name
  {
    assert name[0..] == name;
  }

  /** The base of a scoped name stands before its first delimiter, the leaf behind its
      last; neither is scoped itself. A name that is not scoped is both. */
  lemma BaseAndLeaf(name: string)
    ensures !Nested(Base(name)) && !Nested(Leaf(name))
    ensures if Nested(name)
            then
              && |Base(name)| == Find(name, "::", 0, |name|)
              && Base(name) + "::" <= name && EndsIn(name, "::" + Leaf(name))
            else Base(name) == Leaf(name) == name
  {
    var parts := SplitFrom(name, 0);
    PartsArePlain(name, 0);
    SplitThenJoin(name, 0);
    assert name[0..] == name;
    if Nested(name) {
      LastPart(parts);
      FirstPart(parts);
    }
  }

  predicate EndsIn(s: string, end: string) {
    |end| <= |s| && s[|s| - |end|..] == end
  }

  lemma FirstPart(parts: seq<string>)
    requires |parts| > 1
    ensures parts[0] + "::" <= Join(parts)
  {
  }

  lemma {:induction false} LastPart(parts: seq<string>)
    requires |parts| > 1
    ensures EndsIn(Join(parts), "::" + parts[|parts| - 1])
  {
    var rest := Join(parts[1..]);
    assert Join(parts) == parts[0] + "::" + rest;
    if |parts| > 2 {
      LastPart(parts[1..]);
      assert Join(parts)[|parts[0]| + 2..] == rest;
    }
  }

  /** A stretch without the delimiter is a plain name. */
  lemma StretchIsPlain(s: string, a: nat, b: nat)
    requires a <= b <= |s| && forall p | a <= p && p + 2 <= b :: !MatchesAt(s, "::", p)
    ensures !Nested(s[a..b])
  {
    var part := s[a..b];
    forall p: nat | p + 2 <= |part| ensures !MatchesAt(part, "::", p) {
      var here, there := part[p..p + 2], s[a + p..a + p + 2];
      assert here[0] == part[p] == s[a + p] == there[0];
      assert here[1] == part[p + 1] == s[a + p + 1] == there[1];
      assert here == there && !MatchesAt(s, "::", a + p);
    }
  }

  /** No part of a name is scoped itself. */
  lemma {:induction false} PartsArePlain(s: string, pos: nat)
    requires pos <= |s|
    ensures forall k | 0 <= k < |SplitFrom(s, pos)| :: !Nested(SplitFrom(s, pos)[k])
    decreases |s| - pos
  {
    var next := Find(s, "::", pos, |s|);
    if next < 0 {
      StretchIsPlain(s, pos, |s|);
      assert s[pos..|s|] == s[pos..];
    } else {
      StretchIsPlain(s, pos, next);
      PartsArePlain(s, next + 2);
    }
  }

  // ---- the world ----

  /** The tracked names, and for a model entity of each name the names of the model
      entities it consists of: its own and those of the models inside it. */
  datatype Sdf = Sdf(models: set<string>, parts: string -> multiset<string>)

  /** The SDF file's own rules: no entity name is scoped, a top-level model is one of its
      own parts once and lies in no other model, and no model inside shares its name. */
  ghost predicate WellNamed(sdf: Sdf) {
    && (forall n, x | x in sdf.parts(n) :: !Nested(x))
    && (forall m | m in sdf.models :: sdf.parts(Base(m))[Base(m)] == 1)
    && (forall m, n | m in sdf.models && Base(m) in sdf.parts(n) :: n == Base(m))
    && (forall m, b | m in sdf.models && b in sdf.models && Nested(m) :: Leaf(m) != Base(b))
  }

  /** The entities after creating those of the names that have an SDF object. */
  function Create(sdf: Sdf, present: multiset<string>, names: seq<string>): multiset<string> {
    if names == [] then present
    else
      var last := names[|names| - 1];
      var before := Create(sdf, present, names[..|names| - 1]);
      if last in sdf.models then before + sdf.parts(Leaf(last)) else before
  }

  /** What a batch of removals takes away: for each name that is found, the entity with
      everything inside it. */
  function Taken(sdf: Sdf, present: multiset<string>, names: seq<string>): multiset<string> {
    if names == [] then multiset{}
    else
      var last := names[|names| - 1];
      var before := Taken(sdf, present, names[..|names| - 1]);
      if last in present then before + (sdf.parts(last) - before) else before
  }

  lemma TakenStep(sdf: Sdf, present: multiset<string>, names: seq<string>, i: nat)
    requires i < |names|
    ensures var before := Taken(sdf, present, names[..i]);
      Taken(sdf, present, names[..i + 1])
      == if names[i] in present then before + (sdf.parts(names[i]) - before) else before
  {
    assert names[..i + 1][..i] == names[..i];
  }

  lemma CreateStep(sdf: Sdf, present: multiset<string>, names: seq<string>, i: nat)
    requires i < |names|
    ensures Create(sdf, present, names[..i + 1])
         == if names[i] in sdf.models then Create(sdf, present, names[..i]) + sdf.parts(Leaf(names[i]))
            else Create(sdf, present, names[..i])
  {
    assert names[..i + 1][..i] == names[..i];
  }

  /** One unpaused step: the first non-empty queue, in priority order, is served. */
  function Tick(sdf: Sdf, s: System): System {
    if s.reset != [] then
      s.(postReset := s.postReset + s.reset, reset := [], now := s.now + 1,
         moved := s.moved + Marks(s.reset, s.now, Existing(s.present)))
    else if s.postReset != [] then
      s.(postReset := [], now := s.now + 1,
         released := s.released + Marks(s.postReset, s.now, Existing(s.present)))
    else if s.respawn != [] then
      s.(postRespawn := s.postRespawn + s.respawn, respawn := [], now := s.now + 1,
         present := s.present - Taken(sdf, s.present, Names(s.respawn)),
         removed := s.removed + Marks(s.respawn, s.now, Existing(s.present)))
    else if s.postRespawn != [] then
      s.(postRespawn := [], now := s.now + 1,
         present := Create(sdf, s.present, Names(s.postRespawn)),
         created := s.created + Marks(s.postRespawn, s.now, sdf.models))
    else s.(now := s.now + 1)
  }

  /** Re-indexing after a respawn throws if the top-level model of a tracked name is
      missing. */
  predicate ReindexFails(sdf: Sdf, s: System) {
    && s.reset == [] && s.postReset == [] && s.respawn == [] && s.postRespawn != []
    && exists m :: m in sdf.models && Base(m) !in Tick(sdf, s).present
  }

  // ---- the class ----

  class DRLHelperSystem {
    const sdf: Sdf
    var resetQueue: seq<Request>
    var postResetQueue: seq<Request>
    var respawnQueue: seq<Request>
    var postRespawnQueue: seq<Request>
    var present: multiset<string>
    ghost var now: nat
    ghost var moved: seq<Done>
    ghost var released: seq<Done>
    ghost var removed: seq<Done>
    ghost var created: seq<Done>

    ghost function View(): System
      reads this
    {
      System(resetQueue, postResetQueue, respawnQueue, postRespawnQueue,
             present, now, moved, released, removed, created)
    }

    constructor (sdf: Sdf, present: multiset<string>)
      ensures this.sdf == sdf
      ensures View() == System([], [], [], [], present, 0, [], [], [], [])
    {
      this.sdf := sdf;
      this.present := present;
      resetQueue, postResetQueue, respawnQueue, postRespawnQueue := [], [], [], [];
      now, moved, released, removed, created := 0, [], [], [], [];
    }

    method ResetPos(name: string, pose: Pose)
      modifies this`resetQueue
      ensures View() == old(View()).(reset := old(resetQueue) + [Request(name, pose)])
    {
      resetQueue := resetQueue + [Request(name, pose)];
    }

    method RespawnModel(name: string, pose: Pose)
      modifies this`respawnQueue
      ensures View() == old(View()).(respawn := old(respawnQueue) + [Request(name, pose)])
    {
      respawnQueue := respawnQueue + [Request(name, pose)];
    }

    /** First phase of a reset: teleport the models and queue them for release. */
    method ServeResets()
      requires resetQueue != []
      modifies this
      ensures View() == Tick(sdf, old(View()))
    {
      ghost var s := View();
      for i := 0 to |resetQueue|
        invariant postResetQueue == s.postReset + s.reset[..i]
        invariant moved == s.moved + Marks(s.reset, s.now, Existing(s.present))[..i]
        invariant View() == s.(postReset := postResetQueue, moved := moved)
      {
        var element := resetQueue[i];
        postResetQueue := postResetQueue + [element];
        moved := moved + [Done(element, now, element.name in present)];
      }
      resetQueue := [];
      now := now + 1;
    }

    /** Second phase of a reset: release the velocity commands. */
    method ServePostResets()
      requires resetQueue == [] && postResetQueue != []
      modifies this
      ensures View() == Tick(sdf, old(View()))
    {
      ghost var s := View();
      for i := 0 to |postResetQueue|
        invariant released == s.released + Marks(s.postReset, s.now, Existing(s.present))[..i]
        invariant View() == s.(released := released)
      {
        var element := postResetQueue[i];
        released := released + [Done(element, now, element.name in present)];
      }
      postResetQueue := [];
      now := now + 1;
    }

    /** First phase of a respawn: ask for the entities' removal. */
    method ServeRespawns()
      requires resetQueue == postResetQueue == [] && respawnQueue != []
      modifies this
      ensures View() == Tick(sdf, old(View()))
    {
      hide Tick, Taken, Names, Existing, Marks;
      ghost var s := View();
      ghost var names := Names(s.respawn);
      var removing: multiset<string> := multiset{};
      NothingTaken(sdf, s.present, names[..0]);
      for i := 0 to |respawnQueue|
        invariant postRespawnQueue == s.postRespawn + s.respawn[..i]
        invariant removing == Taken(sdf, s.present, names[..i])
        invariant removed == s.removed + Marks(s.respawn, s.now, Existing(s.present))[..i]
        invariant View() == s.(postRespawn := postRespawnQueue, removed := removed)
      {
        var element := respawnQueue[i];
        TakenStep(sdf, s.present, names, i);
        OneMore(s.postRespawn, s.respawn, i);
        OneMore(s.removed, Marks(s.respawn, s.now, Existing(s.present)), i);
        postRespawnQueue := postRespawnQueue + [element];
        if element.name in present {
          removing := removing + (sdf.parts(element.name) - removing);
        }
        removed := removed + [Done(element, now, element.name in present)];
      }
      assert names[..|s.respawn|] == names;
      respawnQueue := [];
      present := present - removing;
      now := now + 1;
      TickRespawns(sdf, s);
    }

    /** Second phase of a respawn: create the entities anew and re-index the caches,
        which throws (ok is false) if the top-level model of a tracked name is missing. */
    method ServePostRespawns() returns (ok: bool)
      requires resetQueue == postResetQueue == respawnQueue == [] && postRespawnQueue != []
      modifies this
      ensures View() == Tick(sdf, old(View()))
      ensures ok <==> forall m | m in sdf.models :: Base(m) in present
    {
      hide Tick, Create;
      ghost var s := View();
      ghost var names := Names(s.postRespawn);
      NothingCreated(sdf, s.present, names[..0]);
      for i := 0 to |postRespawnQueue|
        invariant present == Create(sdf, s.present, names[..i])
        invariant created == s.created + Marks(s.postRespawn, s.now, sdf.models)[..i]
        invariant View() == s.(present := present, created := created)
      {
        var element := postRespawnQueue[i];
        CreateStep(sdf, s.present, names, i);
        if element.name in sdf.models {
          present := present + sdf.parts(Leaf(element.name));
        }
        created := created + [Done(element, now, element.name in sdf.models)];
      }
      assert names[..|s.postRespawn|] == names;
      postRespawnQueue := [];
      now := now + 1;
      TickPostRespawns(sdf, s);
      ok := Reindex();
    }

    /** Looks up the top-level model of every tracked name. */
    method Reindex() returns (ok: bool)
      ensures ok <==> forall m | m in sdf.models :: Base(m) in present
    {
      var remaining := sdf.models;
      while remaining != {}
        invariant remaining <= sdf.models && forall m | m in sdf.models - remaining :: Base(m) in present
        decreases |remaining|
      {
        var m :| m in remaining;
        var splitName := ModelNameSplitter(m);
        if splitName[0] !in present {
          return false;
        }
        remaining := remaining - {m};
      }
      return true;
    }

    /** One iteration of the simulation; ok is false if re-indexing threw. */
    method PreUpdate(paused: bool) returns (ok: bool)
      modifies this
      ensures View() == if paused then old(View()) else Tick(sdf, old(View()))
      ensures ok <==> paused || !ReindexFails(sdf, old(View()))
    {
      ok := true;
      if paused {
        return;
      }
      if resetQueue != [] {
        ServeResets();
      } else if postResetQueue != [] {
        ServePostResets();
      } else if respawnQueue != [] {
        ServeRespawns();
      } else if postRespawnQueue != [] {
        ok := ServePostRespawns();
      } else {
        now := now + 1;
      }
    }
  }

  lemma OneMore<T>(done: seq<T>, xs: seq<T>, i: nat)
    requires i < |xs|
    ensures done + xs[..i] + [xs[i]] == done + xs[..i + 1]
  {
  }

  lemma NothingTaken(sdf: Sdf, present: multiset<string>, names: seq<string>)
    requires names == []
    ensures Taken(sdf, present, names) == multiset{}
  {
  }

  lemma NothingCreated(sdf: Sdf, present: multiset<string>, names: seq<string>)
    requires names == []
    ensures Create(sdf, present, names) == present
  {
  }

  lemma TickRespawns(sdf: Sdf, s: System)
    requires s.reset == s.postReset == [] && s.respawn != []
    ensures Tick(sdf, s) == s.(
      postRespawn := s.postRespawn + s.respawn, respawn := [], now := s.now + 1,
      present := s.present - Taken(sdf, s.present, Names(s.respawn)),
      removed := s.removed + Marks(s.respawn, s.now, Existing(s.present)))
  {
  }

  lemma TickPostRespawns(sdf: Sdf, s: System)
    requires s.reset == s.postReset == s.respawn == [] && s.postRespawn != []
    ensures Tick(sdf, s) == s.(
      postRespawn := [], now := s.now + 1, present := Create(sdf, s.present, Names(s.postRespawn)),
      created := s.created + Marks(s.postRespawn, s.now, sdf.models))
  {
  }

  function Ticks(sdf: Sdf, s: System, n: nat): System {
    if n == 0 then s else Tick(sdf, Ticks(sdf, s, n - 1))
  }

  function WithReset(s: System, r: Request): System {
    s.(reset := s.reset + [r])
  }

  function WithRespawn(s: System, r: Request): System {
    s.(respawn := s.respawn + [r])
  }

  predicate Quiet(s: System) {
    s.reset == s.postReset == s.respawn == s.postRespawn == []
  }

  const STABILIZATION_STEPS := 3

  /** How a call of the public interface ends: n refused as an argument, all steps made,
      or an exception from re-indexing in one of them. */
  datatype Outcome = Refused | Completed | Interrupted

  /** n steps, or fewer if re-indexing throws: the state reached, and whether all steps
      were made. */
  function RunSteps(sdf: Sdf, s: System, n: nat): (System, bool) {
    if n == 0 then (s, true)
    else
      var (t, ok) := RunSteps(sdf, s, n - 1);
      if ok then (Tick(sdf, t), !ReindexFails(sdf, t)) else (t, false)
  }

  /** The public interface: a request, then three simulation steps. */
  class DRLServer {
    const sys: DRLHelperSystem

    constructor (sys: DRLHelperSystem)
      ensures this.sys == sys
    {
      this.sys := sys;
    }

    method RunN(n: int) returns (outcome: Outcome)
      modifies sys
      ensures outcome == Refused <==> n <= 0
      ensures n <= 0 ==> sys.View() == old(sys.View())
      ensures n > 0 ==> (sys.View(), outcome == Completed) == RunSteps(sys.sdf, old(sys.View()), n)
    {
      if n <= 0 {
        return Refused;
      }
      hide Tick, ReindexFails;
      for i := 0 to n
        invariant (sys.View(), true) == RunSteps(sys.sdf, old(sys.View()), i)
      {
        var ok := sys.PreUpdate(false);
        if !ok {
          Interruption(sys.sdf, old(sys.View()), i + 1, n);
          return Interrupted;
        }
      }
      return Completed;
    }

    /** Everything is drained afterwards exactly if no respawn was waiting before. */
    method ResetPos(name: string, pose: Pose) returns (outcome: Outcome)
      modifies sys
      ensures (sys.View(), outcome == Completed)
           == RunSteps(sys.sdf, WithReset(old(sys.View()), Request(name, pose)), STABILIZATION_STEPS)
      ensures outcome != Refused && (Quiet(sys.View()) <==> old(sys.respawnQueue) == [])
    {
      sys.ResetPos(name, pose);
      RunDrains(sys.sdf, sys.View(), STABILIZATION_STEPS);
      outcome := RunN(STABILIZATION_STEPS);
    }

    /** Everything is drained afterwards exactly if no reset was waiting before. */
    method RespawnModel(name: string, pose: Pose) returns (outcome: Outcome)
      modifies sys
      ensures (sys.View(), outcome == Completed)
           == RunSteps(sys.sdf, WithRespawn(old(sys.View()), Request(name, pose)), STABILIZATION_STEPS)
      ensures outcome != Refused && (Quiet(sys.View()) <==> old(sys.resetQueue) == [])
    {
      sys.RespawnModel(name, pose);
      RunDrains(sys.sdf, sys.View(), STABILIZATION_STEPS);
      outcome := RunN(STABILIZATION_STEPS);
    }
  }

  /** Once interrupted, the run makes no further step. */
  lemma {:induction false} Interruption(sdf: Sdf, s: System, k: nat, n: nat)
    requires k <= n && !RunSteps(sdf, s, k).1
    ensures RunSteps(sdf, s, n) == RunSteps(sdf, s, k)
  {
    hide Tick, ReindexFails;
    if k < n {
      Interruption(sdf, s, k, n - 1);
    }
  }

  // ---- draining ----

  function Phases(first: seq<Request>, second: seq<Request>): nat {
    if first != [] then 2 else if second != [] then 1 else 0
  }

  /** Unpaused steps until all four queues are empty, if nothing new arrives. */
  function Drain(s: System): (n: nat)
    ensures n <= 4 && (n == 0 <==> Quiet(s))
  {
    Phases(s.reset, s.postReset) + Phases(s.respawn, s.postRespawn)
  }

  lemma TickDrains(sdf: Sdf, s: System)
    ensures Drain(Tick(sdf, s)) == if Drain(s) == 0 then 0 else Drain(s) - 1
  {
  }

  /** With no new requests the queues are empty after exactly Drain(s) steps, at most
      four, and stay empty. */
  lemma {:induction false} DrainExactly(sdf: Sdf, s: System, n: nat)
    ensures Quiet(Ticks(sdf, s, n)) <==> Drain(s) <= n
    ensures Drain(Ticks(sdf, s, n)) == if Drain(s) <= n then 0 else Drain(s) - n
  {
    hide Tick, Drain;
    if n > 0 {
      DrainExactly(sdf, s, n - 1);
      TickDrains(sdf, Ticks(sdf, s, n - 1));
    }
  }

  /** A step whose re-indexing throws has emptied the queues already. */
  lemma FailsQuiet(sdf: Sdf, s: System)
    requires ReindexFails(sdf, s)
    ensures Quiet(Tick(sdf, s))
  {
  }

  /** An exception does not change what is drained: an uninterrupted run makes all its
      steps, and an interrupted one leaves all queues empty. */
  lemma {:induction false} RunIsTicks(sdf: Sdf, s: System, n: nat)
    ensures var (t, ok) := RunSteps(sdf, s, n);
      if ok then t == Ticks(sdf, s, n) else Quiet(t) && Drain(s) <= n
  {
    hide Tick, ReindexFails, Drain;
    if n > 0 {
      RunIsTicks(sdf, s, n - 1);
      var (t, ok) := RunSteps(sdf, s, n - 1);
      if ok && ReindexFails(sdf, t) {
        FailsQuiet(sdf, t);
        DrainExactly(sdf, s, n);
      }
    }
  }

  lemma RunDrains(sdf: Sdf, s: System, n: nat)
    ensures Quiet(RunSteps(sdf, s, n).0) <==> Drain(s) <= n
  {
    RunIsTicks(sdf, s, n);
    DrainExactly(sdf, s, n);
  }

  // ---- every sequence of requests and steps ----

  datatype Act = Reset(r: Request) | Respawn(r: Request) | Update(paused: bool)

  function Do(sdf: Sdf, s: System, a: Act): System {
    match a
    case Reset(r) => WithReset(s, r)
    case Respawn(r) => WithRespawn(s, r)
    case Update(paused) => if paused then s else Tick(sdf, s)
  }

  function Run(sdf: Sdf, s: System, acts: seq<Act>): System {
    if acts == [] then s else Do(sdf, Run(sdf, s, acts[..|acts| - 1]), acts[|acts| - 1])
  }

  function Start(present: multiset<string>): System {
    System([], [], [], [], present, 0, [], [], [], [])
  }

  function Resets(acts: seq<Act>): seq<Request> {
    if acts == [] then []
    else Resets(acts[..|acts| - 1]) + if acts[|acts| - 1].Reset? then [acts[|acts| - 1].r] else []
  }

  function Respawns(acts: seq<Act>): seq<Request> {
    if acts == [] then []
    else Respawns(acts[..|acts| - 1]) + if acts[|acts| - 1].Respawn? then [acts[|acts| - 1].r] else []
  }

  function Requests(done: seq<Done>): (r: seq<Request>)
    ensures |r| == |done| && forall i | 0 <= i < |r| :: r[i] == done[i].request
  {
    seq(|done|, i requires 0 <= i < |done| => done[i].request)
  }

  /** The requests issued are those past their first phase and those still waiting for
      it; those past their first phase are past the second or waiting for it. Order is
      kept throughout, and a request's second phase comes in a later step. */
  ghost predicate Ledger(issued: seq<Request>, waiting: seq<Request>, first: seq<Done>, between: seq<Request>,
                         second: seq<Done>, now: nat) {
    && Requests(first) + waiting == issued
    && Requests(second) + between == Requests(first)
    && (forall i | 0 <= i < |first| :: first[i].step < now)
    && (forall i | 0 <= i < |second| :: first[i].step < second[i].step < now)
  }

  lemma LedgerIssue(issued: seq<Request>, waiting: seq<Request>, first: seq<Done>, between: seq<Request>,
                    second: seq<Done>, now: nat, r: Request)
    requires Ledger(issued, waiting, first, between, second, now)
    ensures Ledger(issued + [r], waiting + [r], first, between, second, now)
  {
    assert Requests(first) + (waiting + [r]) == Requests(first) + waiting + [r];
  }

  lemma LedgerFirst(issued: seq<Request>, waiting: seq<Request>, first: seq<Done>, between: seq<Request>,
                    second: seq<Done>, now: nat, found: set<string>)
    requires Ledger(issued, waiting, first, between, second, now)
    ensures Ledger(issued, [], first + Marks(waiting, now, found), between + waiting, second, now + 1)
  {
    var first' := first + Marks(waiting, now, found);
    assert Requests(first') == Requests(first) + waiting;
    assert Requests(second) + (between + waiting) == Requests(second) + between + waiting;
    assert |second| <= |first|;
  }

  lemma LedgerSecond(issued: seq<Request>, waiting: seq<Request>, first: seq<Done>, between: seq<Request>,
                     second: seq<Done>, now: nat, found: set<string>)
    requires Ledger(issued, waiting, first, between, second, now)
    ensures Ledger(issued, waiting, first, [], second + Marks(between, now, found), now + 1)
  {
    var second' := second + Marks(between, now, found);
    assert Requests(second') == Requests(second) + between;
    assert |second'| == |first|;
  }

  lemma LedgerLater(issued: seq<Request>, waiting: seq<Request>, first: seq<Done>, between: seq<Request>,
                    second: seq<Done>, now: nat)
    requires Ledger(issued, waiting, first, between, second, now)
    ensures Ledger(issued, waiting, first, between, second, now + 1)
  {
    assert |second| <= |Requests(first)|;
  }

  /** Over any sequence of requests and steps, paused or not, every reset and every
      respawn passes through its two phases at most once, in the order issued, in
      strictly different steps, and is never dropped. */
  lemma {:induction false} PhasesInOrder(sdf: Sdf, present: multiset<string>, acts: seq<Act>)
    ensures var s := Run(sdf, Start(present), acts);
      && Ledger(Resets(acts), s.reset, s.moved, s.postReset, s.released, s.now)
      && Ledger(Respawns(acts), s.respawn, s.removed, s.postRespawn, s.created, s.now)
  {
    if acts != [] {
      var before, a := acts[..|acts| - 1], acts[|acts| - 1];
      PhasesInOrder(sdf, present, before);
      DoKeepsLedgers(sdf, Run(sdf, Start(present), before), a, Resets(before), Respawns(before));
    }
  }

  /** Once the queues are empty, every request issued has been through both phases. */
  lemma AllServedWhenQuiet(sdf: Sdf, present: multiset<string>, acts: seq<Act>)
    requires Quiet(Run(sdf, Start(present), acts))
    ensures var s := Run(sdf, Start(present), acts);
      && Requests(s.moved) == Requests(s.released) == Resets(acts)
      && Requests(s.removed) == Requests(s.created) == Respawns(acts)
  {
    PhasesInOrder(sdf, present, acts);
    var s := Run(sdf, Start(present), acts);
    assert Requests(s.moved) + [] == Requests(s.moved) && Requests(s.released) + [] == Requests(s.released);
    assert Requests(s.removed) + [] == Requests(s.removed) && Requests(s.created) + [] == Requests(s.created);
  }

  lemma DoKeepsLedgers(sdf: Sdf, s: System, a: Act, resets: seq<Request>, respawns: seq<Request>)
    requires Ledger(resets, s.reset, s.moved, s.postReset, s.released, s.now)
    requires Ledger(respawns, s.respawn, s.removed, s.postRespawn, s.created, s.now)
    ensures var s' := Do(sdf, s, a);
      && Ledger(resets + (if a.Reset? then [a.r] else []), s'.reset, s'.moved, s'.postReset, s'.released, s'.now)
      && Ledger(respawns + (if a.Respawn? then [a.r] else []),
                s'.respawn, s'.removed, s'.postRespawn, s'.created, s'.now)
  {
    hide Ledger;
    assert resets + [] == resets && respawns + [] == respawns;
    match a
    case Reset(r) => LedgerIssue(resets, s.reset, s.moved, s.postReset, s.released, s.now, r);
    case Respawn(r) => LedgerIssue(respawns, s.respawn, s.removed, s.postRespawn, s.created, s.now, r);
    case Update(paused) =>
      if !paused {
        TickKeepsLedgers(sdf, s, resets, respawns);
      }
  }

  lemma TickKeepsLedgers(sdf: Sdf, s: System, resets: seq<Request>, respawns: seq<Request>)
    requires Ledger(resets, s.reset, s.moved, s.postReset, s.released, s.now)
    requires Ledger(respawns, s.respawn, s.removed, s.postRespawn, s.created, s.now)
    ensures var s' := Tick(sdf, s);
      && Ledger(resets, s'.reset, s'.moved, s'.postReset, s'.released, s'.now)
      && Ledger(respawns, s'.respawn, s'.removed, s'.postRespawn, s'.created, s'.now)
  {
    hide Ledger;
    LedgerLater(resets, s.reset, s.moved, s.postReset, s.released, s.now);
    LedgerLater(respawns, s.respawn, s.removed, s.postRespawn, s.created, s.now);
    if s.reset != [] {
      LedgerFirst(resets, s.reset, s.moved, s.postReset, s.released, s.now, Existing(s.present));
    } else if s.postReset != [] {
      LedgerSecond(resets, s.reset, s.moved, s.postReset, s.released, s.now, Existing(s.present));
    } else if s.respawn != [] {
      LedgerFirst(respawns, s.respawn, s.removed, s.postRespawn, s.created, s.now, Existing(s.present));
    } else if s.postRespawn != [] {
      LedgerSecond(respawns, s.respawn, s.removed, s.postRespawn, s.created, s.now, sdf.models);
    }
  }

  /** The steps the entries were made in are past. */
  ghost predicate Past(done: seq<Done>, now: nat) {
    forall i | 0 <= i < |done| :: done[i].step < now
  }

  ghost predicate NoneIn(done: seq<Done>, step: nat) {
    forall i | 0 <= i < |done| :: done[i].step != step
  }

  /** One action adds entries of the current step only, and none to the respawns if that
      step finds a reset. */
  lemma ActMarks(sdf: Sdf, s: System, a: Act, step: nat)
    requires Past(s.removed, s.now) && Past(s.created, s.now)
    ensures var s' := Do(sdf, s, a);
      && s'.now == (if a == Update(false) then s.now + 1 else s.now)
      && Past(s'.removed, s'.now) && Past(s'.created, s'.now)
      && (step < s.now && NoneIn(s.removed, step) ==> NoneIn(s'.removed, step))
      && (step < s.now && NoneIn(s.created, step) ==> NoneIn(s'.created, step))
      && (s.reset != [] || s.postReset != [] ==> s'.removed == s.removed && s'.created == s.created)
  {
    hide Taken, Create;
  }

  lemma {:induction false} AllPast(sdf: Sdf, present: multiset<string>, acts: seq<Act>)
    ensures var s := Run(sdf, Start(present), acts); Past(s.removed, s.now) && Past(s.created, s.now)
  {
    hide Do;
    if acts != [] {
      AllPast(sdf, present, acts[..|acts| - 1]);
      ActMarks(sdf, Run(sdf, Start(present), acts[..|acts| - 1]), acts[|acts| - 1], 0);
    }
  }

  /** Over every run: no entity is removed or created for a respawn in a step that finds
      a reset in either of its queues. */
  lemma {:induction false} RespawnWaitsForResets(sdf: Sdf, present: multiset<string>, acts: seq<Act>, k: nat)
    requires k < |acts| && acts[k] == Update(false)
    ensures var at, s := Run(sdf, Start(present), acts[..k]), Run(sdf, Start(present), acts);
      at.reset != [] || at.postReset != [] ==> NoneIn(s.removed, at.now) && NoneIn(s.created, at.now)
    ensures Run(sdf, Start(present), acts).now > Run(sdf, Start(present), acts[..k]).now
  {
    hide Do;
    var last := |acts| - 1;
    var at, before := Run(sdf, Start(present), acts[..k]), Run(sdf, Start(present), acts[..last]);
    AllPast(sdf, present, acts[..last]);
    ActMarks(sdf, before, acts[last], at.now);
    if k < last {
      assert acts[..last][..k] == acts[..k];
      RespawnWaitsForResets(sdf, present, acts[..last], k);
    }
  }

  // ---- the public interface over sequences of calls ----

  datatype Call = ResetCall(r: Request) | RespawnCall(r: Request) | RunCall(n: int)

  /** What a call leaves behind, whether or not it is interrupted. */
  function After(sdf: Sdf, s: System, c: Call): System {
    match c
    case ResetCall(r) => RunSteps(sdf, WithReset(s, r), STABILIZATION_STEPS).0
    case RespawnCall(r) => RunSteps(sdf, WithRespawn(s, r), STABILIZATION_STEPS).0
    case RunCall(n) => if n <= 0 then s else RunSteps(sdf, s, n).0
  }

  function Calls(sdf: Sdf, s: System, calls: seq<Call>): System {
    if calls == [] then s else After(sdf, Calls(sdf, s, calls[..|calls| - 1]), calls[|calls| - 1])
  }

  /** Between calls of the public interface all four queues are empty. */
  lemma {:induction false} QuietBetweenCalls(sdf: Sdf, present: multiset<string>, calls: seq<Call>)
    ensures Quiet(Calls(sdf, Start(present), calls))
  {
    hide RunSteps;
    if calls != [] {
      var before, c := calls[..|calls| - 1], calls[|calls| - 1];
      QuietBetweenCalls(sdf, present, before);
      var s := Calls(sdf, Start(present), before);
      match c
      case ResetCall(r) => RunDrains(sdf, WithReset(s, r), STABILIZATION_STEPS);
      case RespawnCall(r) => RunDrains(sdf, WithRespawn(s, r), STABILIZATION_STEPS);
      case RunCall(n) =>
        if n > 0 {
          RunDrains(sdf, s, n);
        }
    }
  }

  // ---- the models in the world ----

  ghost predicate AllPlain(present: multiset<string>) {
    forall x | x in present :: !Nested(x)
  }

  /** A respawn may be asked for a tracked name, or for one that no tracked name lies in. */
  predicate Harmless(sdf: Sdf, name: string) {
    name in sdf.models || forall m | m in sdf.models :: Base(m) != name
  }

  ghost predicate HarmlessRespawns(sdf: Sdf, acts: seq<Act>) {
    forall k | 0 <= k < |acts| && acts[k].Respawn? :: Harmless(sdf, acts[k].r.name)
  }

  /** The top-level model of a tracked name can only be missing while a respawn of it is
      between its phases; entities carry plain names; waiting respawns are harmless. */
  ghost predicate WorldSound(sdf: Sdf, s: System) {
    && AllPlain(s.present)
    && (forall m | m in sdf.models && Base(m) !in s.present :: Base(m) in Names(s.postRespawn))
    && (forall i | 0 <= i < |s.respawn| :: Harmless(sdf, s.respawn[i].name))
    && (forall i | 0 <= i < |s.postRespawn| :: Harmless(sdf, s.postRespawn[i].name))
  }

  /** Only a removal of the model itself takes a top-level model away, once. */
  lemma {:induction false} TakenCount(sdf: Sdf, present: multiset<string>, names: seq<string>, m: string)
    requires WellNamed(sdf) && m in sdf.models
    ensures Taken(sdf, present, names)[Base(m)] == if Base(m) in names && Base(m) in present then 1 else 0
  {
    if names != [] {
      var last := |names| - 1;
      assert names == names[..last] + [names[last]];
      TakenCount(sdf, present, names[..last], m);
    }
  }

  /** Only respawns of the model itself create a top-level model, one each. */
  lemma {:induction false} CreateCount(sdf: Sdf, present: multiset<string>, names: seq<string>, m: string)
    requires WellNamed(sdf) && m in sdf.models && Base(m) in sdf.models
    ensures Create(sdf, present, names)[Base(m)] == present[Base(m)] + multiset(names)[Base(m)]
  {
    if names != [] {
      var b, last := Base(m), |names| - 1;
      assert names == names[..last] + [names[last]];
      CreateCount(sdf, present, names[..last], m);
      var name := names[last];
      if name in sdf.models {
        if Nested(name) {
          BaseIsPlain(m);
          assert Leaf(name) != Base(b);
          PlainName(b);
        } else {
          PlainName(name);
        }
      }
    }
  }

  lemma BaseIsPlain(m: string)
    ensures !Nested(Base(m)) && !Nested(Leaf(m))
  {
    PartsArePlain(m, 0);
  }

  lemma {:induction false} CreateKeeps(sdf: Sdf, present: multiset<string>, names: seq<string>)
    requires WellNamed(sdf) && AllPlain(present)
    ensures present <= Create(sdf, present, names) && AllPlain(Create(sdf, present, names))
  {
    if names != [] {
      CreateKeeps(sdf, present, names[..|names| - 1]);
    }
  }

  lemma WorldStep(sdf: Sdf, s: System, a: Act)
    requires WellNamed(sdf) && WorldSound(sdf, s) && (a.Respawn? ==> Harmless(sdf, a.r.name))
    ensures WorldSound(sdf, Do(sdf, s, a))
  {
    hide Harmless, Taken, Create, WellNamed, Base, Nested;
    if a == Update(false) && s.reset == s.postReset == [] {
      if s.respawn != [] {
        WorldRespawns(sdf, s);
      } else if s.postRespawn != [] {
        WorldPostRespawns(sdf, s);
      }
    }
  }

  lemma WorldRespawns(sdf: Sdf, s: System)
    requires WellNamed(sdf) && WorldSound(sdf, s) && s.reset == s.postReset == [] && s.respawn != []
    ensures WorldSound(sdf, Tick(sdf, s))
  {
    hide Harmless, Taken, WellNamed, Base, Nested;
    var s' := Tick(sdf, s);
    assert Names(s'.postRespawn) == Names(s.postRespawn) + Names(s.respawn);
    forall m | m in sdf.models && Base(m) !in s'.present ensures Base(m) in Names(s'.postRespawn) {
      TakenCount(sdf, s.present, Names(s.respawn), m);
    }
  }

  lemma WorldPostRespawns(sdf: Sdf, s: System)
    requires WellNamed(sdf) && WorldSound(sdf, s) && s.reset == s.postReset == s.respawn == [] && s.postRespawn != []
    ensures WorldSound(sdf, Tick(sdf, s)) && forall m | m in sdf.models :: Base(m) in Tick(sdf, s).present
  {
    hide Create, WellNamed, Base, Nested;
    var names := Names(s.postRespawn);
    CreateKeeps(sdf, s.present, names);
    forall m | m in sdf.models ensures Base(m) in Create(sdf, s.present, names) {
      if Base(m) in s.present {
        assert s.present[Base(m)] <= Create(sdf, s.present, names)[Base(m)];
      } else {
        var i :| 0 <= i < |names| && names[i] == Base(m);
        assert Harmless(sdf, s.postRespawn[i].name);
        CreateCount(sdf, s.present, names, m);
      }
    }
  }

  lemma {:induction false} WorldRun(sdf: Sdf, present: multiset<string>, acts: seq<Act>)
    requires WellNamed(sdf) && AllPlain(present) && HarmlessRespawns(sdf, acts)
    requires forall m | m in sdf.models :: Base(m) in present
    ensures WorldSound(sdf, Run(sdf, Start(present), acts))
  {
    if acts != [] {
      var before := acts[..|acts| - 1];
      WorldRun(sdf, present, before);
      WorldStep(sdf, Run(sdf, Start(present), before), acts[|acts| - 1]);
    }
  }

  /** Re-indexing never throws in a run that asks for harmless respawns only. */
  lemma ReindexNeverFails(sdf: Sdf, present: multiset<string>, acts: seq<Act>)
    requires WellNamed(sdf) && AllPlain(present) && HarmlessRespawns(sdf, acts)
    requires forall m | m in sdf.models :: Base(m) in present
    ensures !ReindexFails(sdf, Run(sdf, Start(present), acts))
  {
    WorldRun(sdf, present, acts);
    var s := Run(sdf, Start(present), acts);
    if s.reset == s.postReset == s.respawn == [] && s.postRespawn != [] {
      WorldPostRespawns(sdf, s);
    }
  }

  ghost predicate NeverFails(sdf: Sdf, present: multiset<string>) {
    forall acts :: !ReindexFails(sdf, Run(sdf, Start(present), acts))
  }

  /** The top-level model of every tracked name is tracked itself. */
  ghost predicate BasesTracked(sdf: Sdf) {
    forall m | m in sdf.models :: Base(m) in sdf.models
  }

  /** Re-indexing never throws in any run at all if and only if the top-level model of
      every tracked name is tracked: a respawn of one that is not removes it and does not
      create it again. */
  lemma ReindexingSafe(sdf: Sdf, present: multiset<string>)
    requires WellNamed(sdf) && AllPlain(present) && forall m | m in sdf.models :: present[Base(m)] == 1
    ensures NeverFails(sdf, present) <==> BasesTracked(sdf)
  {
    hide Run, ReindexFails, WellNamed, AllPlain, Base, HarmlessRespawns;
    if BasesTracked(sdf) {
      forall acts ensures !ReindexFails(sdf, Run(sdf, Start(present), acts)) {
        AllHarmless(sdf, acts);
        ReindexNeverFails(sdf, present, acts);
      }
    } else {
      var m :| m in sdf.models && Base(m) !in sdf.models;
      var acts := UntrackedBase(sdf, present, m);
      FailureFound(sdf, present, acts);
    }
  }

  lemma FailureFound(sdf: Sdf, present: multiset<string>, acts: seq<Act>)
    requires ReindexFails(sdf, Run(sdf, Start(present), acts))
    ensures !NeverFails(sdf, present)
  {
    hide Run, ReindexFails;
  }

  lemma AllHarmless(sdf: Sdf, acts: seq<Act>)
    requires BasesTracked(sdf)
    ensures HarmlessRespawns(sdf, acts)
  {
  }

  lemma UntrackedBase(sdf: Sdf, present: multiset<string>, m: string) returns (acts: seq<Act>)
    requires WellNamed(sdf) && m in sdf.models && Base(m) !in sdf.models && present[Base(m)] == 1
    ensures ReindexFails(sdf, Run(sdf, Start(present), acts))
  {
    var b := Base(m);
    var r := Request(b, []);
    acts := [Respawn(r), Update(false)];
    RunTwo(sdf, Start(present), Respawn(r), Update(false));
    hide WellNamed, Base, Run, Taken, Create, SplitFrom;
    var s0 := WithRespawn(Start(present), r);
    var s := Tick(sdf, s0);
    assert s0.respawn == [r] && s.postRespawn == [r] && Names([r]) == [b];
    TakenCount(sdf, present, [b], m);
    CreateNothing(sdf, s.present, b);
  }

  lemma RunTwo(sdf: Sdf, s: System, a: Act, b: Act)
    ensures Run(sdf, s, [a, b]) == Do(sdf, Do(sdf, s, a), b)
  {
    hide Do;
    assert [a, b][..1] == [a] && [a][..0] == [];
    assert Run(sdf, s, [a]) == Do(sdf, Run(sdf, s, []), a);
  }

  lemma CreateNothing(sdf: Sdf, present: multiset<string>, name: string)
    requires name !in sdf.models
    ensures Create(sdf, present, [name]) == present
  {
    assert [name][..0] == [];
  }

  // ---- resets find their models ----

  /** A step that serves resets finds no model with a scoped name, since entities have
      plain names, and misses a top-level one only between the phases of its respawn. */
  lemma ResetMisses(sdf: Sdf, present: multiset<string>, acts: seq<Act>, i: nat)
    requires WellNamed(sdf) && AllPlain(present) && HarmlessRespawns(sdf, acts)
    requires forall m | m in sdf.models :: Base(m) in present
    ensures var s := Run(sdf, Start(present), acts);
      i < |s.reset| && s.reset[i].name in sdf.models ==>
        && |Tick(sdf, s).moved| == |s.moved| + |s.reset|
        && var found := Tick(sdf, s).moved[|s.moved| + i].found; var name := s.reset[i].name;
          && (Nested(name) ==> !found)
          && (!Nested(name) && name !in Names(s.postRespawn) ==> found)
  {
    WorldRun(sdf, present, acts);
    var s := Run(sdf, Start(present), acts);
    if i < |s.reset| && s.reset[i].name in sdf.models && !Nested(s.reset[i].name) {
      PlainName(s.reset[i].name);
    }
  }

  /** No respawn of the model is asked for while one is under way. */
  ghost predicate Spaced(sdf: Sdf, present: multiset<string>, acts: seq<Act>, name: string) {
    forall k | 0 <= k < |acts| && acts[k].Respawn? && acts[k].r.name == name ::
      var s := Run(sdf, Start(present), acts[..k]);
      name !in Names(s.respawn) && name !in Names(s.postRespawn)
  }

  /** The model exists once, or is between the phases of its only respawn under way. */
  ghost predicate OnceOrBetween(s: System, name: string) {
    && s.present[name] + multiset(Names(s.postRespawn))[name] == 1
    && multiset(Names(s.respawn))[name] + multiset(Names(s.postRespawn))[name] <= 1
  }

  lemma OnceTick(sdf: Sdf, s: System, name: string)
    requires WellNamed(sdf) && name in sdf.models && !Nested(name) && OnceOrBetween(s, name)
    ensures OnceOrBetween(Tick(sdf, s), name)
  {
    hide WellNamed, Taken, Create;
    PlainName(name);
    if s.reset == s.postReset == [] {
      if s.respawn != [] {
        assert Names(s.postRespawn + s.respawn) == Names(s.postRespawn) + Names(s.respawn);
        TakenCount(sdf, s.present, Names(s.respawn), name);
      } else if s.postRespawn != [] {
        CreateCount(sdf, s.present, Names(s.postRespawn), name);
      }
    }
  }

  lemma {:induction false} OnceRun(sdf: Sdf, present: multiset<string>, acts: seq<Act>, name: string)
    requires WellNamed(sdf) && name in sdf.models && !Nested(name) && present[name] == 1
    requires Spaced(sdf, present, acts, name)
    ensures OnceOrBetween(Run(sdf, Start(present), acts), name)
  {
    hide WellNamed, Nested, Tick;
    if acts != [] {
      var k := |acts| - 1;
      var before, s := acts[..k], Run(sdf, Start(present), acts[..k]);
      assert forall j | 0 <= j < k :: before[..j] == acts[..j];
      OnceRun(sdf, present, before, name);
      match acts[k]
      case Reset(_) =>
      case Respawn(r) =>
        assert Names(s.respawn + [r]) == Names(s.respawn) + [r.name];
      case Update(paused) =>
        if !paused {
          OnceTick(sdf, s, name);
        }
    }
  }

  /** If the respawns of a model are spaced, a reset of it finds it exactly if its name
      is not scoped and no respawn of it is between its phases. */
  lemma ResetFindsExactly(sdf: Sdf, present: multiset<string>, acts: seq<Act>, i: nat)
    requires WellNamed(sdf) && AllPlain(present) && HarmlessRespawns(sdf, acts)
    requires forall m | m in sdf.models :: present[Base(m)] == 1
    ensures var s := Run(sdf, Start(present), acts);
      i < |s.reset| && s.reset[i].name in sdf.models && Spaced(sdf, present, acts, s.reset[i].name) ==>
        && |Tick(sdf, s).moved| == |s.moved| + |s.reset|
        && (Tick(sdf, s).moved[|s.moved| + i].found
            <==> !Nested(s.reset[i].name) && s.reset[i].name !in Names(s.postRespawn))
  {
    hide WellNamed, AllPlain, Base, Nested, HarmlessRespawns, Spaced;
    var s := Run(sdf, Start(present), acts);
    if i < |s.reset| && s.reset[i].name in sdf.models && Spaced(sdf, present, acts, s.reset[i].name) {
      var name := s.reset[i].name;
      ResetMisses(sdf, present, acts, i);
      if !Nested(name) {
        PlainName(name);
        OnceRun(sdf, present, acts, name);
      }
    }
  }

  ghost predicate HarmlessCalls(sdf: Sdf, calls: seq<Call>) {
    forall k | 0 <= k < |calls| && calls[k].RespawnCall? :: Harmless(sdf, calls[k].r.name)
  }

  lemma {:induction false} StepsKeepWorld(sdf: Sdf, s: System, n: nat)
    requires WellNamed(sdf) && WorldSound(sdf, s)
    ensures WorldSound(sdf, RunSteps(sdf, s, n).0) && RunSteps(sdf, s, n).1
  {
    hide WorldSound, WellNamed, Tick, ReindexFails;
    if n > 0 {
      StepsKeepWorld(sdf, s, n - 1);
      var t := RunSteps(sdf, s, n - 1).0;
      WorldStep(sdf, t, Update(false));
      SoundNeverFails(sdf, t);
    }
  }

  lemma SoundNeverFails(sdf: Sdf, s: System)
    requires WellNamed(sdf) && WorldSound(sdf, s)
    ensures !ReindexFails(sdf, s)
  {
    if s.reset == s.postReset == s.respawn == [] && s.postRespawn != [] {
      WorldPostRespawns(sdf, s);
    }
  }

  lemma {:induction false} CallsKeepWorld(sdf: Sdf, present: multiset<string>, calls: seq<Call>)
    requires WellNamed(sdf) && AllPlain(present) && HarmlessCalls(sdf, calls)
    requires forall m | m in sdf.models :: Base(m) in present
    ensures WorldSound(sdf, Calls(sdf, Start(present), calls))
  {
    hide RunSteps, WellNamed;
    if calls != [] {
      var before, c := calls[..|calls| - 1], calls[|calls| - 1];
      CallsKeepWorld(sdf, present, before);
      var s := Calls(sdf, Start(present), before);
      match c
      case ResetCall(r) => StepsKeepWorld(sdf, WithReset(s, r), STABILIZATION_STEPS);
      case RespawnCall(r) => StepsKeepWorld(sdf, WithRespawn(s, r), STABILIZATION_STEPS);
      case RunCall(n) =>
        if n > 0 {
          StepsKeepWorld(sdf, s, n);
        }
    }
  }

  /** After any calls of the public interface that asked for harmless respawns only, a
      reset of a tracked model is served in its call's first step, finds its model if and
      only if the name is not scoped, and its call is not interrupted. */
  lemma PublicResetFinds(sdf: Sdf, present: multiset<string>, calls: seq<Call>, r: Request)
    requires WellNamed(sdf) && AllPlain(present) && HarmlessCalls(sdf, calls) && r.name in sdf.models
    requires forall m | m in sdf.models :: Base(m) in present
    ensures var s := Calls(sdf, Start(present), calls);
      && Tick(sdf, WithReset(s, r)).moved == s.moved + [Done(r, s.now, !Nested(r.name))]
      && RunSteps(sdf, WithReset(s, r), STABILIZATION_STEPS).1
  {
    hide RunSteps, WellNamed, Calls;
    QuietBetweenCalls(sdf, present, calls);
    CallsKeepWorld(sdf, present, calls);
    var s := Calls(sdf, Start(present), calls);
    StepsKeepWorld(sdf, WithReset(s, r), STABILIZATION_STEPS);
    if !Nested(r.name) {
      PlainName(r.name);
    }
    assert [] + [r] == [r];
    assert Marks([r], s.now, Existing(s.present)) == [Done(r, s.now, r.name in Existing(s.present))];
  }

  // ---- what a respawn leaves in the world ----

  /** How many entities carry the name of a top-level model after a batch of respawns.
      One is removed, one is created per request: the model is there exactly once again
      if and only if the batch asked for it once (or not at all). */
  lemma RespawnCopies(sdf: Sdf, s: System, m: string)
    requires WellNamed(sdf) && s.reset == s.postReset == s.postRespawn == [] && s.respawn != []
    requires m in sdf.models && !Nested(m) && s.present[m] == 1
    ensures var requested := multiset(Names(s.respawn))[m];
      && Ticks(sdf, s, 2).present[m] == (if requested == 0 then 1 else requested)
      && (Ticks(sdf, s, 2).present[m] == 1 <==> requested <= 1)
  {
    TwoTicks(sdf, s);
    hide WellNamed, Taken, Create, Tick, Nested;
    var names := Names(s.respawn);
    var s1 := Tick(sdf, s);
    PlainName(m);
    assert m in names <==> multiset(names)[m] > 0;
    TakenCount(sdf, s.present, names, m);
    CreateCount(sdf, s1.present, names, m);
  }

  lemma TwoTicks(sdf: Sdf, s: System)
    requires s.reset == s.postReset == s.postRespawn == [] && s.respawn != []
    ensures var s1 := Tick(sdf, s);
      && s1.present == s.present - Taken(sdf, s.present, Names(s.respawn))
      && s1.removed == s.removed + Marks(s.respawn, s.now, Existing(s.present))
      && Ticks(sdf, s, 2).present == Create(sdf, s1.present, Names(s.respawn))
  {
    assert Ticks(sdf, s, 1) == Tick(sdf, Ticks(sdf, s, 0)) == Tick(sdf, s);
    assert [] + s.respawn == s.respawn;
  }

  /** A single respawn of a top-level model leaves the same entities in the world: what
      is removed with the model is created with it again. */
  lemma RespawnRestores(sdf: Sdf, s: System, r: Request)
    requires s.reset == s.postReset == s.postRespawn == [] && s.respawn == [r]
    requires r.name in sdf.models && !Nested(r.name) && r.name in s.present && sdf.parts(r.name) <= s.present
    ensures Ticks(sdf, s, 2).present == s.present
    ensures Tick(sdf, s).present == s.present - sdf.parts(r.name)
  {
    TwoTicks(sdf, s);
    PlainName(r.name);
    hide Tick, Ticks, Nested, SplitFrom;
    var names := Names([r]);
    assert names == [r.name] && names[..0] == [] && names[..1] == names;
    TakenStep(sdf, s.present, names, 0);
    CreateStep(sdf, s.present - sdf.parts(r.name), names, 0);
    assert multiset{} + (sdf.parts(r.name) - multiset{}) == sdf.parts(r.name);
  }

  function Times(m: multiset<string>, k: nat): multiset<string> {
    if k == 0 then multiset{} else Times(m, k - 1) + m
  }

  /** A respawn of a model inside another removes nothing: its scoped name finds no
      entity. It creates a further copy of the inner model with every request. */
  lemma NestedRespawnAdds(sdf: Sdf, s: System, m: string)
    requires AllPlain(s.present) && s.reset == s.postReset == s.postRespawn == [] && s.respawn != []
    requires m in sdf.models && Nested(m) && forall i | 0 <= i < |s.respawn| :: s.respawn[i].name == m
    ensures Ticks(sdf, s, 2).present == s.present + Times(sdf.parts(Leaf(m)), |s.respawn|)
    ensures var s1 := Tick(sdf, s);
      && |s1.removed| == |s.removed| + |s.respawn|
      && forall i | |s.removed| <= i < |s1.removed| :: !s1.removed[i].found
  {
    TwoTicks(sdf, s);
    hide Tick, Ticks;
    NoneTaken(sdf, s.present, Names(s.respawn));
    assert s.present - multiset{} == s.present;
    CreatedTimes(sdf, s.present, Names(s.respawn), m);
  }

  lemma {:induction false} NoneTaken(sdf: Sdf, present: multiset<string>, names: seq<string>)
    requires forall i | 0 <= i < |names| :: names[i] !in present
    ensures Taken(sdf, present, names) == multiset{}
  {
    if names != [] {
      NoneTaken(sdf, present, names[..|names| - 1]);
    }
  }

  lemma {:induction false} CreatedTimes(sdf: Sdf, present: multiset<string>, names: seq<string>, m: string)
    requires m in sdf.models && forall i | 0 <= i < |names| :: names[i] == m
    ensures Create(sdf, present, names) == present + Times(sdf.parts(Leaf(m)), |names|)
  {
    if names != [] {
      CreatedTimes(sdf, present, names[..|names| - 1], m);
    }
  }
}
