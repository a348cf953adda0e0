/**
  Any number of readers and writers sharing one read/write lock. The server keeps one counter with one
  deadline for all readers, and does not know who they are.
 */
module RWProtocol {
  import opened Wrappers
  import opened RedisCommands
  import opened RedisScripts

  /** Leases not yet released, by reader and by writer, and every name that has been used. */
  datatype RWClients = RWClients(readers: map<string, int>, writers: map<string, int>, used: set<string>)

  datatype RWSys = RWSys(store: RWStore, clients: RWClients)

  datatype RWStep =
    | ReadTry(v: string, ttl: int)
    | ReadRelease(v: string)
    | WriteTry(v: string, ttl: int)
    | WriteRelease(v: string)
    | Tick(d: nat)

  /** Attempts have names of their own. Anybody can release, however often, and read with any time to live. */
  predicate Enabled(s: RWSys, step: RWStep) {
    match step
    case ReadTry(v, _) => v !in s.clients.used
    case WriteTry(v, ttl) => v !in s.clients.used && 0 < ttl
    case _ => true
  }

  function Next(s: RWSys, step: RWStep): RWSys {
    if !Enabled(s, step) then s
    else
      var c, now := s.clients, s.store.now;
      match step
      case ReadTry(v, ttl) =>
        if Alive(s.store.writer, now) then s.(clients := c.(used := c.used + {v}))
        else
          RWSys(RedisScripts.ReadGrant(s.store, ttl), c.(readers := c.readers[v := now + ttl], used := c.used + {v}))
      case ReadRelease(v) =>
        RWSys(RedisScripts.ReadRelease(s.store), c.(readers := c.readers - {v}))
      case WriteTry(v, ttl) =>
        if Alive(s.store.readers, now) || Alive(s.store.writer, now) then s.(clients := c.(used := c.used + {v}))
        else
          RWSys(s.store.(writer := Present(v, At(now + ttl))),
                c.(writers := c.writers[v := now + ttl], used := c.used + {v}))
      case WriteRelease(v) =>
        RWSys(RedisScripts.WriteRelease(s.store, v), c.(writers := c.writers - {v}))
      case Tick(d) => s.(store := s.store.(now := now + d))
  }

  function Run(s: RWSys, steps: seq<RWStep>): RWSys {
    if steps == [] then s
    else Next(Run(s, steps[..|steps| - 1]), steps[|steps| - 1])
  }

  function Initial(now: int): RWSys {
    RWSys(RWStore(now, Absent, Absent), RWClients(map[], map[], {}))
  }

  function ActiveReaders(s: RWSys): set<string> {
    set v | v in s.clients.readers && s.store.now <= s.clients.readers[v]
  }

  function ActiveWriters(s: RWSys): set<string> {
    set v | v in s.clients.writers && s.store.now <= s.clients.writers[v]
  }

  /** The counter outlives every active reader, counts each of them, and is never zero. */
  ghost predicate ReadersCounted(s: RWSys) {
    && (Alive(s.store.readers, s.store.now) ==> s.store.readers.expiry.At? && 1 <= s.store.readers.value)
    && |ActiveReaders(s)| <= ReadCount(s.store)
    && forall v :: v in ActiveReaders(s) ==>
                     Alive(s.store.readers, s.store.now) && s.clients.readers[v] <= s.store.readers.expiry.time
  }

  /** The writer key exists exactly while the lease it stands for runs, and never beside the counter. */
  ghost predicate WriterKnown(s: RWSys) {
    && (forall v :: v in ActiveWriters(s) ==> s.store.writer == Present(v, At(s.clients.writers[v])))
    && (Alive(s.store.writer, s.store.now) ==> s.store.writer.value in ActiveWriters(s))
    && !(Alive(s.store.readers, s.store.now) && Alive(s.store.writer, s.store.now))
  }

  ghost predicate Inv(s: RWSys) {
    && ReadersCounted(s)
    && WriterKnown(s)
    && s.clients.readers.Keys + s.clients.writers.Keys <= s.clients.used
  }

  /**
    What the scripts need of readers. A newcomer's lease ends no sooner than those it joins, since it
    resets the deadline they share, and is not one of no length, which runs while the counter is deleted;
    and nobody releases who has no running lease while the counter holds no spare count, since the script
    cannot tell whose count it takes.
   */
  predicate Careful(s: RWSys, step: RWStep) {
    match step
    case ReadTry(v, ttl) =>
      ttl != 0 && forall r :: r in ActiveReaders(s) ==> s.clients.readers[r] <= s.store.now + ttl
    case ReadRelease(v) =>
      v in ActiveReaders(s) || |ActiveReaders(s)| < ReadCount(s.store) || ReadCount(s.store) == 0
    case _ => true
  }

  lemma CountAfterTry(s: RWSys, v: string, ttl: int)
    requires Inv(s) && Enabled(s, ReadTry(v, ttl)) && !Alive(s.store.writer, s.store.now)
    ensures var t := Next(s, ReadTry(v, ttl));
            && ActiveReaders(t) == ActiveReaders(s) + (if 0 <= ttl then {v} else {})
            && |ActiveReaders(t)| == |ActiveReaders(s)| + (if 0 <= ttl then 1 else 0)
            && ActiveWriters(t) == ActiveWriters(s)
            && ReadCount(t.store) == if ttl <= 0 then 0 else ReadCount(s.store) + 1
  {
    assert v !in ActiveReaders(s);
    assert ActiveReaders(Next(s, ReadTry(v, ttl))) == ActiveReaders(s) + (if 0 <= ttl then {v} else {});
  }

  lemma ReadTryKeepsInv(s: RWSys, v: string, ttl: int)
    requires Inv(s) && Enabled(s, ReadTry(v, ttl))
    ensures Inv(Next(s, ReadTry(v, ttl))) <==>
            Alive(s.store.writer, s.store.now) || Careful(s, ReadTry(v, ttl))
  {
    var t := Next(s, ReadTry(v, ttl));
    if Alive(s.store.writer, s.store.now) {
      assert ActiveReaders(t) == ActiveReaders(s) && ActiveWriters(t) == ActiveWriters(s);
    } else {
      CountAfterTry(s, v, ttl);
      if ttl <= 0 {
        forall r | r in ActiveReaders(s) ensures |ActiveReaders(t)| != 0 {
          assert r in ActiveReaders(t);
        }
      }
    }
  }

  lemma CountAfterRelease(s: RWSys, v: string)
    requires Inv(s) && Enabled(s, ReadRelease(v))
    ensures var t := Next(s, ReadRelease(v));
            && ActiveReaders(t) == ActiveReaders(s) - {v} && ActiveWriters(t) == ActiveWriters(s)
            && |ActiveReaders(t)| == |ActiveReaders(s)| - (if v in ActiveReaders(s) then 1 else 0)
            && ReadCount(t.store) == if ReadCount(s.store) == 0 then 0 else ReadCount(s.store) - 1
  {
    assert ActiveReaders(Next(s, ReadRelease(v))) == ActiveReaders(s) - {v};
  }

  lemma ReadReleaseKeepsInv(s: RWSys, v: string)
    requires Inv(s) && Enabled(s, ReadRelease(v))
    ensures Inv(Next(s, ReadRelease(v))) <==> Careful(s, ReadRelease(v))
  {
    var t := Next(s, ReadRelease(v));
    CountAfterRelease(s, v);
    if Careful(s, ReadRelease(v)) {
      assert |ActiveReaders(t)| <= ReadCount(t.store);
      forall w | w in ActiveReaders(t)
        ensures Alive(t.store.readers, t.store.now) && t.clients.readers[w] <= t.store.readers.expiry.time
      {
        assert w in ActiveReaders(s);
        SubsetSize({w}, ActiveReaders(t));
      }
      assert WriterKnown(t);
    }
  }

  lemma OtherStepsKeepInv(s: RWSys, step: RWStep)
    requires Inv(s) && Enabled(s, step) && !step.ReadTry? && !step.ReadRelease?
    ensures Inv(Next(s, step))
  {
    var t := Next(s, step);
    SubsetSize(ActiveReaders(t), ActiveReaders(s));
  }

  lemma SubsetSize<T>(a: set<T>, b: set<T>)
    ensures a <= b ==> |a| <= |b|
  {
    if a <= b {
      assert b == a + (b - a);
    }
  }

  /** One step keeps the invariant exactly when it is refused or careful. */
  lemma NextKeepsInv(s: RWSys, step: RWStep)
    requires Inv(s)
    ensures Inv(Next(s, step)) <==>
            (!Enabled(s, step) || Careful(s, step) || (step.ReadTry? && Alive(s.store.writer, s.store.now)))
  {
    if Enabled(s, step) {
      match step
      case ReadTry(v, ttl) => ReadTryKeepsInv(s, v, ttl);
      case ReadRelease(v) => ReadReleaseKeepsInv(s, v);
      case _ => OtherStepsKeepInv(s, step);
    }
  }

  ghost predicate CarefulRun(s: RWSys, steps: seq<RWStep>) {
    forall i | 0 <= i < |steps| :: Enabled(Run(s, steps[..i]), steps[i]) ==> Careful(Run(s, steps[..i]), steps[i])
  }

  lemma {:induction false} RunKeepsInv(s: RWSys, steps: seq<RWStep>)
    requires Inv(s) && CarefulRun(s, steps)
    ensures Inv(Run(s, steps))
  {
    if steps != [] {
      var before, last := steps[..|steps| - 1], steps[|steps| - 1];
      assert forall i | 0 <= i < |before| :: before[..i] == steps[..i] && before[i] == steps[i];
      RunKeepsInv(s, before);
      assert steps[|steps| - 1] == last;
      NextKeepsInv(Run(s, before), last);
    }
  }

  /**
    At most one active writer, no active reader beside it, and a counter that stands for at least the
    active readers.
   */
  ghost predicate Exclusive(s: RWSys) {
    && (forall u, v :: u in ActiveWriters(s) && v in ActiveWriters(s) ==> u == v)
    && (forall r :: r in ActiveReaders(s) ==> ActiveWriters(s) == {})
    && |ActiveReaders(s)| <= ReadCount(s.store)
    && (Alive(s.store.readers, s.store.now) ==> 1 <= s.store.readers.value)
  }

  lemma CarefulRunsAreExclusive(now: int, steps: seq<RWStep>)
    requires CarefulRun(Initial(now), steps)
    ensures Exclusive(Run(Initial(now), steps))
  {
    RunKeepsInv(Initial(now), steps);
  }

  // ----- How long leases last -----

  /** The time that passes in a list of steps. */
  function Elapsed(steps: seq<RWStep>): nat {
    if steps == [] then 0
    else
      var last := steps[|steps| - 1];
      Elapsed(steps[..|steps| - 1]) + if last.Tick? then last.d else 0
  }

  lemma {:induction false} TimeElapses(s: RWSys, steps: seq<RWStep>)
    ensures Run(s, steps).store.now == s.store.now + Elapsed(steps)
  {
    if steps != [] {
      TimeElapses(s, steps[..|steps| - 1]);
    }
  }

  /** A writer stays the writer until its deadline, whatever others do, and is active for just as long. */
  lemma {:induction false} WriterStays(s: RWSys, v: string, steps: seq<RWStep>)
    requires v in s.clients.writers && v in s.clients.used
    requires s.store.writer == Present(v, At(s.clients.writers[v]))
    requires forall step <- steps :: !(step.WriteRelease? && step.v == v)
    ensures var t := Run(s, steps);
            && v in t.clients.used && v in t.clients.writers && t.clients.writers[v] == s.clients.writers[v]
            && (t.store.now <= s.clients.writers[v] ==> t.store.writer == s.store.writer)
  {
    if steps != [] {
      var before, last := steps[..|steps| - 1], steps[|steps| - 1];
      assert last in steps && forall step <- before :: step in steps;
      WriterStays(s, v, before);
      TimeElapses(s, before);
      TimeElapses(s, steps);
    }
  }

  /** After its deadline the server does not show a writer again whose attempt is over. */
  lemma {:induction false} OnlyOneGrant(s: RWSys, v: string, steps: seq<RWStep>)
    requires v in s.clients.used && v in s.clients.writers
    requires s.store.writer == Present(v, At(s.clients.writers[v]))
    ensures var t := Run(s, steps);
            && v in t.clients.used
            && (t.store.writer.Present? && t.store.writer.value == v ==> t.store.writer == s.store.writer)
  {
    if steps != [] {
      OnlyOneGrant(s, v, steps[..|steps| - 1]);
    }
  }

  /** A write lease that is granted lasts for exactly its time to live, unless it is released before. */
  lemma WriteLeaseLasts(s: RWSys, v: string, ttl: int, steps: seq<RWStep>)
    requires Enabled(s, WriteTry(v, ttl))
    requires !Alive(s.store.readers, s.store.now) && !Alive(s.store.writer, s.store.now)
    requires forall step <- steps :: !(step.WriteRelease? && step.v == v)
    ensures var t := Run(Next(s, WriteTry(v, ttl)), steps);
            && (v in ActiveWriters(t) <==> Elapsed(steps) <= ttl)
            && (Get(t.store.writer, t.store.now) == Some(v) <==> Elapsed(steps) <= ttl)
  {
    var t := Next(s, WriteTry(v, ttl));
    WriterStays(t, v, steps);
    TimeElapses(t, steps);
    OnlyOneGrant(t, v, steps);
  }

  lemma {:induction false} ReaderStays(s: RWSys, v: string, steps: seq<RWStep>)
    requires v in s.clients.readers && v in s.clients.used
    requires forall step <- steps :: !(step.ReadRelease? && step.v == v)
    ensures var t := Run(s, steps);
            && v in t.clients.used && v in t.clients.readers && t.clients.readers[v] == s.clients.readers[v]
  {
    if steps != [] {
      var before, last := steps[..|steps| - 1], steps[|steps| - 1];
      assert last in steps && forall step <- before :: step in steps;
      ReaderStays(s, v, before);
    }
  }

  /** A read lease that is granted lasts for exactly its time to live, unless it is released before. */
  lemma ReadLeaseLasts(s: RWSys, v: string, ttl: int, steps: seq<RWStep>)
    requires Enabled(s, ReadTry(v, ttl)) && !Alive(s.store.writer, s.store.now)
    requires forall step <- steps :: !(step.ReadRelease? && step.v == v)
    ensures v in ActiveReaders(Run(Next(s, ReadTry(v, ttl)), steps)) <==> Elapsed(steps) <= ttl
  {
    var t := Next(s, ReadTry(v, ttl));
    ReaderStays(t, v, steps);
    TimeElapses(t, steps);
  }

  /** A release ends the lease of whoever releases; the writer's frees the lock for writers. */
  lemma ReleasesEnd(s: RWSys, v: string)
    ensures v !in ActiveReaders(Next(s, ReadRelease(v)))
    ensures v !in ActiveWriters(Next(s, WriteRelease(v)))
    ensures Get(s.store.writer, s.store.now) == Some(v) ==> Next(s, WriteRelease(v)).store.writer == Absent
    ensures Get(s.store.writer, s.store.now) != Some(v) ==> Next(s, WriteRelease(v)).store == s.store
  {
  }

  // ----- Careless steps let a writer in -----

  lemma RunNone(s: RWSys)
    ensures Run(s, []) == s
  {
  }

  predicate WriterBesideReader(s: RWSys) {
    ActiveReaders(s) != {} && ActiveWriters(s) != {}
  }

  lemma {:induction false} RunFirst(s: RWSys, step: RWStep, more: seq<RWStep>)
    ensures Run(s, [step] + more) == Run(Next(s, step), more)
  {
    var steps := [step] + more;
    if more == [] {
      assert steps[..0] == [];
    } else {
      assert steps[..|steps| - 1] == [step] + more[..|more| - 1];
      RunFirst(s, step, more[..|more| - 1]);
    }
  }

  lemma CarefulFirst(s: RWSys, step: RWStep, more: seq<RWStep>)
    requires Careful(s, step) && CarefulRun(Next(s, step), more)
    ensures CarefulRun(s, [step] + more)
  {
    var steps := [step] + more;
    forall i | 0 <= i < |steps| && Enabled(Run(s, steps[..i]), steps[i]) ensures Careful(Run(s, steps[..i]), steps[i]) {
      if i == 0 {
        RunNone(s);
      } else {
        assert steps[..i] == [step] + more[..i - 1];
        RunFirst(s, step, more[..i - 1]);
      }
    }
  }

  lemma {:induction false} LengthsBounded(names: set<string>) returns (n: nat)
    ensures forall x <- names :: |x| <= n
  {
    if names == {} {
      n := 0;
    } else {
      var x :| x in names;
      var m := LengthsBounded(names - {x});
      n := if m < |x| then |x| else m;
      forall y <- names ensures |y| <= n {
        if y != x {
          assert y in names - {x};
        }
      }
    }
  }

  lemma FreshName(used: set<string>) returns (w: string)
    ensures w !in used
  {
    var n := LengthsBounded(used);
    w := seq(n + 1, _ => 'w');
  }

  /** Without a live counter the next writer gets in, whoever still reads. */
  lemma WriterGetsIn(s: RWSys) returns (more: seq<RWStep>)
    requires !Alive(s.store.readers, s.store.now) && !Alive(s.store.writer, s.store.now) && ActiveReaders(s) != {}
    ensures CarefulRun(s, more) && WriterBesideReader(Run(s, more))
  {
    var w := FreshName(s.clients.used);
    more := [WriteTry(w, 1)];
    RunNone(s);
    assert more[..0] == [];
    var t := Next(s, WriteTry(w, 1));
    assert ActiveReaders(t) == ActiveReaders(s) && w in ActiveWriters(t);
  }

  /** A newcomer that shortens the deadline of the counter, or deletes it: an older reader still reads then. */
  lemma CarelessTryAdmits(s: RWSys, v: string, ttl: int) returns (more: seq<RWStep>)
    requires Inv(s) && Enabled(s, ReadTry(v, ttl)) && !Alive(s.store.writer, s.store.now)
    requires !Careful(s, ReadTry(v, ttl))
    ensures CarefulRun(Next(s, ReadTry(v, ttl)), more)
    ensures WriterBesideReader(Run(Next(s, ReadTry(v, ttl)), more))
  {
    var t := Next(s, ReadTry(v, ttl));
    if ttl <= 0 {
      assert ttl == 0 ==> v in ActiveReaders(t);
      assert forall r :: r in ActiveReaders(s) ==> r in ActiveReaders(t);
      more := WriterGetsIn(t);
      return;
    }
    var u := Next(t, Tick(ttl + 1));
    var r :| r in ActiveReaders(s) && s.store.now + ttl < s.clients.readers[r];
    assert r in ActiveReaders(u);
    var rest := WriterGetsIn(u);
    more := [Tick(ttl + 1)] + rest;
    RunFirst(t, Tick(ttl + 1), rest);
    CarefulFirst(t, Tick(ttl + 1), rest);
  }

  /** A counter that stands for too few readers: when all it stands for have left, one still reads. */
  lemma {:induction false} ShortCountAdmits(s: RWSys) returns (more: seq<RWStep>)
    requires ReadCount(s.store) < |ActiveReaders(s)| && !Alive(s.store.writer, s.store.now)
    requires Alive(s.store.readers, s.store.now) ==> 1 <= s.store.readers.value
    ensures CarefulRun(s, more) && WriterBesideReader(Run(s, more))
    decreases ReadCount(s.store)
  {
    if ReadCount(s.store) == 0 {
      more := WriterGetsIn(s);
    } else {
      var r :| r in ActiveReaders(s);
      var t := Next(s, ReadRelease(r));
      assert ActiveReaders(t) == ActiveReaders(s) - {r};
      var rest := ShortCountAdmits(t);
      more := [ReadRelease(r)] + rest;
      RunFirst(s, ReadRelease(r), rest);
      CarefulFirst(s, ReadRelease(r), rest);
    }
  }

  lemma InvExcludes(s: RWSys)
    requires Inv(s)
    ensures !WriterBesideReader(s)
  {
    if !Alive(s.store.writer, s.store.now) {
      assert forall w :: w !in ActiveWriters(s);
    } else {
      assert forall r :: r !in ActiveReaders(s);
    }
  }

  /**
    Careful steps are exactly those after which no writer gets in beside an active reader, however long
    everybody is careful from there on.
   */
  lemma CarefulExactly(s: RWSys, step: RWStep)
    requires Inv(s) && Enabled(s, step)
    requires step.ReadTry? ==> !Alive(s.store.writer, s.store.now)
    ensures Careful(s, step) <==>
            forall more: seq<RWStep> | CarefulRun(Next(s, step), more) :: !WriterBesideReader(Run(Next(s, step), more))
  {
    var t := Next(s, step);
    if Careful(s, step) {
      NextKeepsInv(s, step);
      forall more: seq<RWStep> | CarefulRun(t, more) ensures !WriterBesideReader(Run(t, more)) {
        RunKeepsInv(t, more);
        InvExcludes(Run(t, more));
      }
    } else if step.ReadTry? {
      var more := CarelessTryAdmits(s, step.v, step.ttl);
    } else {
      CountAfterRelease(s, step.v);
      var more := ShortCountAdmits(t);
    }
  }

  /** The discipline a caller can check: one time to live for all readers, no release after it. */
  ghost predicate OneTtl(s: RWSys, steps: seq<RWStep>, ttl: int) {
    ttl != 0 && forall i | 0 <= i < |steps| ::
      && (steps[i].ReadTry? ==> steps[i].ttl == ttl)
      && (steps[i].ReadRelease? ==> steps[i].v in ActiveReaders(Run(s, steps[..i])))
  }

  ghost predicate LeasesWithin(s: RWSys, ttl: int) {
    forall r :: r in s.clients.readers ==> s.clients.readers[r] <= s.store.now + ttl
  }

  lemma NextKeepsLeasesWithin(s: RWSys, step: RWStep, ttl: int)
    requires LeasesWithin(s, ttl) && (step.ReadTry? ==> step.ttl == ttl)
    ensures LeasesWithin(Next(s, step), ttl)
  {
  }

  lemma {:induction false} OneTtlKeepsLeasesWithin(now: int, steps: seq<RWStep>, ttl: int)
    requires OneTtl(Initial(now), steps, ttl)
    ensures LeasesWithin(Run(Initial(now), steps), ttl)
  {
    if steps != [] {
      var before := steps[..|steps| - 1];
      assert forall i | 0 <= i < |before| :: before[..i] == steps[..i] && before[i] == steps[i];
      OneTtlKeepsLeasesWithin(now, before, ttl);
      NextKeepsLeasesWithin(Run(Initial(now), before), steps[|steps| - 1], ttl);
    }
  }

  lemma OneTtlIsCareful(now: int, steps: seq<RWStep>, ttl: int)
    requires OneTtl(Initial(now), steps, ttl)
    ensures CarefulRun(Initial(now), steps)
  {
    forall i | 0 <= i < |steps| ensures Careful(Run(Initial(now), steps[..i]), steps[i]) {
      var before := steps[..i];
      assert forall j | 0 <= j < i :: before[..j] == steps[..j] && before[j] == steps[j];
      OneTtlKeepsLeasesWithin(now, before, ttl);
    }
  }

  lemma ReadersWritersExclusion(now: int, steps: seq<RWStep>, ttl: int)
    requires OneTtl(Initial(now), steps, ttl)
    ensures Exclusive(Run(Initial(now), steps))
  {
    OneTtlIsCareful(now, steps, ttl);
    CarefulRunsAreExclusive(now, steps);
  }

  lemma RunPush(s: RWSys, steps: seq<RWStep>, step: RWStep)
    ensures Run(s, steps + [step]) == Next(Run(s, steps), step)
  {
    assert (steps + [step])[..|steps|] == steps;
  }

  /** Without one time to live for all readers, a writer is let in beside a reader. */
  lemma MixedTtlAdmitsWriter()
    ensures exists steps: seq<RWStep> ::
              "a" in ActiveReaders(Run(Initial(0), steps)) && "w" in ActiveWriters(Run(Initial(0), steps))
  {
    RunNone(Initial(0));
    hide Run;
    var s1: seq<RWStep> := [ReadTry("a", 10)];
    RunPush(Initial(0), [], ReadTry("a", 10));
    assert [] + s1 == s1;
    RunPush(Initial(0), s1, ReadTry("b", 1));
    var s2 := s1 + [ReadTry("b", 1)];
    RunPush(Initial(0), s2, Tick(2));
    var s3 := s2 + [Tick(2)];
    RunPush(Initial(0), s3, WriteTry("w", 5));
    assert "w" in ActiveWriters(Run(Initial(0), s3 + [WriteTry("w", 5)]));
  }

  lemma LateRelease(s1: seq<RWStep>)
    requires s1 == [ReadTry("a", 2), Tick(3), ReadTry("b", 2)]
    ensures Run(Initial(0), s1 + [ReadRelease("a")])
            == RWSys(RWStore(3, Absent, Absent), RWClients(map["b" := 5], map[], {"a", "b"}))
  {
    RunNone(Initial(0));
    hide Run;
    RunPush(Initial(0), [], ReadTry("a", 2));
    RunPush(Initial(0), [ReadTry("a", 2)], Tick(3));
    RunPush(Initial(0), [ReadTry("a", 2), Tick(3)], ReadTry("b", 2));
    assert [] + [ReadTry("a", 2)] == [ReadTry("a", 2)];
    assert [ReadTry("a", 2)] + [Tick(3)] == [ReadTry("a", 2), Tick(3)];
    assert [ReadTry("a", 2), Tick(3)] + [ReadTry("b", 2)] == s1;
    RunPush(Initial(0), s1, ReadRelease("a"));
  }

  /** With one time to live, releasing once but late lets a writer in beside a reader. */
  lemma LateReleaseAdmitsWriter()
    ensures exists steps: seq<RWStep> ::
              && (forall i :: 0 <= i < |steps| && steps[i].ReadTry? ==> steps[i].ttl == 2)
              && "b" in ActiveReaders(Run(Initial(0), steps)) && "w" in ActiveWriters(Run(Initial(0), steps))
  {
    hide Run;
    var s1 := [ReadTry("a", 2), Tick(3), ReadTry("b", 2)];
    LateRelease(s1);
    var s2 := s1 + [ReadRelease("a")];
    RunPush(Initial(0), s2, WriteTry("w", 5));
    assert "w" in ActiveWriters(Run(Initial(0), s2 + [WriteTry("w", 5)]));
  }

  lemma DoubleRelease(s1: seq<RWStep>)
    requires s1 == [ReadTry("a", 10), ReadTry("b", 10), ReadRelease("a")]
    ensures Run(Initial(0), s1 + [ReadRelease("a")])
            == RWSys(RWStore(0, Absent, Absent), RWClients(map["b" := 10], map[], {"a", "b"}))
  {
    RunNone(Initial(0));
    hide Run;
    RunPush(Initial(0), [], ReadTry("a", 10));
    RunPush(Initial(0), [ReadTry("a", 10)], ReadTry("b", 10));
    RunPush(Initial(0), [ReadTry("a", 10), ReadTry("b", 10)], ReadRelease("a"));
    assert [] + [ReadTry("a", 10)] == [ReadTry("a", 10)];
    assert [ReadTry("a", 10)] + [ReadTry("b", 10)] == [ReadTry("a", 10), ReadTry("b", 10)];
    assert [ReadTry("a", 10), ReadTry("b", 10)] + [ReadRelease("a")] == s1;
    RunPush(Initial(0), s1, ReadRelease("a"));
  }

  /** A second release by one reader takes the count of another: a writer gets in beside it. */
  lemma DoubleReleaseAdmitsWriter()
    ensures var steps := [ReadTry("a", 10), ReadTry("b", 10), ReadRelease("a"), ReadRelease("a"), WriteTry("w", 10)];
            "b" in ActiveReaders(Run(Initial(0), steps)) && "w" in ActiveWriters(Run(Initial(0), steps))
  {
    hide Run;
    var s1 := [ReadTry("a", 10), ReadTry("b", 10), ReadRelease("a")];
    DoubleRelease(s1);
    RunPush(Initial(0), s1 + [ReadRelease("a")], WriteTry("w", 10));
    assert s1 + [ReadRelease("a")] + [WriteTry("w", 10)]
        == [ReadTry("a", 10), ReadTry("b", 10), ReadRelease("a"), ReadRelease("a"), WriteTry("w", 10)];
  }

  /** A reader with a time to live that is not positive deletes the count of all others, and is told it reads. */
  lemma NegativeTtlAdmitsWriter()
    ensures var steps := [ReadTry("a", 10), ReadTry("b", -1), WriteTry("w", 10)];
            "a" in ActiveReaders(Run(Initial(0), steps)) && "w" in ActiveWriters(Run(Initial(0), steps))
  {
    RunNone(Initial(0));
    hide Run;
    var s1, s2 := [ReadTry("a", 10)], [ReadTry("a", 10), ReadTry("b", -1)];
    assert [] + s1 == s1 && s1 + [ReadTry("b", -1)] == s2;
    RunPush(Initial(0), [], ReadTry("a", 10));
    RunPush(Initial(0), s1, ReadTry("b", -1));
    assert Run(Initial(0), s2).store == RWStore(0, Absent, Absent);
    RunPush(Initial(0), s2, WriteTry("w", 10));
    assert s2 + [WriteTry("w", 10)] == [ReadTry("a", 10), ReadTry("b", -1), WriteTry("w", 10)];
  }
}
