/** Runs put together from pieces: what the ring can reach, with or without a lapped win. */
module RingReach {
  import opened Wrappers
  import opened Ring
  import opened RingTickets

  ghost predicate Reaches(s: State, s': State) {
    exists run :: IsRun(s, run) && Exec(s, run) == s'
  }

  lemma {:induction false} ReachesHere(s: State)
    ensures Reaches(s, s)
  {
    assert IsRun(s, []);
  }

  /** One more action. */
  lemma {:induction false} ReachesNext(s: State, m: State, a: Action)
    requires Reaches(s, m) && Enabled(m, a)
    ensures Reaches(s, Apply(m, a))
  {
    var run :| IsRun(s, run) && Exec(s, run) == m;
    assert IsRun(Apply(m, a), []);
    assert [a][1..] == [];
    assert IsRun(m, [a]);
    RunConcat(s, run, [a]);
  }

  lemma {:induction false} ReachesTrans(s: State, m: State, s': State)
    requires Reaches(s, m) && Reaches(m, s')
    ensures Reaches(s, s')
  {
    var a :| IsRun(s, a) && Exec(s, a) == m;
    var b :| IsRun(m, b) && Exec(m, b) == s';
    RunConcat(s, a, b);
  }

  /** An action that is enabled and is not a lapped win. */
  predicate MayMove(g: Ticketed, a: Action) {
    Shaped(g) && Enabled(g.ring, a) && NoLap(g, a)
  }

  /** What holds of a state holds after every such action. The pieces below are stated for any `P` like that. */
  ghost predicate Closed(P: Ticketed -> bool) {
    forall g, a :: P(g) && MayMove(g, a) ==> P(Annotate(g, a))
  }

  lemma {:induction false} Moves(P: Ticketed -> bool, g: Ticketed, a: Action)
    requires Closed(P) && P(g) && MayMove(g, a)
    ensures P(Annotate(g, a))
  {
  }

  /** Beginning a return and loading `tail`. */
  lemma {:induction false} LeadLoadTail(P: Ticketed -> bool, g: Ticketed, p: nat, b: Buffer) returns (g': Ticketed)
    requires Closed(P) && P(g) && Shaped(g) && Enabled(g.ring, StartReturn(p, b))
    ensures P(g') && Shaped(g') && p < |g'.own| && g'.own[p] == g'.T
    ensures var s := g.ring;
      g'.ring == Goto(s.(hands := s.hands - {b}), p, ReturnLoadHead(b, s.tail))
  {
    var m := Annotate(g, StartReturn(p, b));
    Moves(P, g, StartReturn(p, b));
    g' := Annotate(m, Step(p));
    Moves(P, m, Step(p));
    assert g'.ring.threads == g.ring.threads[p := ReturnLoadHead(b, g.ring.tail)];
  }

  /** Testing for room and winning the compare-exchange on `tail`. */
  lemma {:induction false} LeadWinTail(P: Ticketed -> bool, g: Ticketed, p: nat, b: Buffer) returns (g': Ticketed)
    requires Closed(P) && P(g) && Shaped(g) && Enabled(g.ring, Step(p))
    requires g.ring.threads[p] == ReturnLoadHead(b, g.ring.tail) && g.own[p] == g.T && Succ(g.ring.tail) != g.ring.head
    ensures P(g') && Shaped(g')
    ensures g'.ring == Goto(g.ring.(tail := Succ(g.ring.tail)), p, StoreClaim(b, g.ring.tail))
  {
    var m := Annotate(g, Step(p));
    Moves(P, g, Step(p));
    g' := Annotate(m, Step(p));
    Moves(P, m, Step(p));
    assert g'.ring.threads == g.ring.threads[p := StoreClaim(b, g.ring.tail)];
  }

  /** Claiming a reserved, empty slot and putting the buffer into it. */
  lemma {:induction false} LeadPut(P: Ticketed -> bool, g: Ticketed, p: nat, b: Buffer, t: Index) returns (g': Ticketed)
    requires Closed(P) && P(g) && Shaped(g) && Enabled(g.ring, Step(p)) && g.ring.threads[p] == StoreClaim(b, t)
    requires g.ring.status[t] == Empty && g.ring.buffers[t] == None
    ensures P(g') && Shaped(g')
    ensures var s := g.ring;
      g'.ring == Goto(s.(buffers := s.buffers[t := Some(b)], status := s.status[t := Storing]), p, StorePublish(t))
  {
    var m := Annotate(g, Step(p));
    Moves(P, g, Step(p));
    g' := Annotate(m, Step(p));
    Moves(P, m, Step(p));
    assert g'.ring.threads == g.ring.threads[p := StorePublish(t)];
  }

  /** Storing into a reserved, empty slot. */
  lemma {:induction false} LeadStore(P: Ticketed -> bool, g: Ticketed, p: nat, b: Buffer, t: Index)
    returns (g': Ticketed)
    requires Closed(P) && P(g) && Shaped(g) && Enabled(g.ring, Step(p)) && g.ring.threads[p] == StoreClaim(b, t)
    requires g.ring.status[t] == Empty && g.ring.buffers[t] == None
    ensures P(g') && Shaped(g')
    ensures var s := g.ring;
      g'.ring == Goto(s.(buffers := s.buffers[t := Some(b)], status := s.status[t := Available]), p, Idle)
  {
    var m := LeadPut(P, g, p, b, t);
    g' := Annotate(m, Step(p));
    Moves(P, m, Step(p));
    assert g'.ring.threads == g.ring.threads[p := Idle] && g'.ring.status == g.ring.status[t := Available];
  }

  /** What a thread leaves that puts its buffer into the empty slot at `tail`. */
  function Stored(s: State, b: Buffer): State {
    s.(buffers := s.buffers[s.tail := Some(b)], status := s.status[s.tail := Available],
       tail := Succ(s.tail), hands := s.hands - {b})
  }

  lemma {:induction false} LeadReturn(P: Ticketed -> bool, g: Ticketed, p: nat, b: Buffer) returns (g': Ticketed)
    requires Closed(P) && P(g) && Shaped(g) && Enabled(g.ring, StartReturn(p, b)) && Succ(g.ring.tail) != g.ring.head
    requires g.ring.status[g.ring.tail] == Empty && g.ring.buffers[g.ring.tail] == None
    ensures P(g') && Shaped(g') && g'.ring == Stored(g.ring, b)
  {
    var g1 := LeadLoadTail(P, g, p, b);
    var g2 := LeadWinTail(P, g1, p, b);
    g' := LeadStore(P, g2, p, b, g.ring.tail);
    assert g'.ring.threads == g.ring.threads;
  }

  /** Beginning an obtain and loading `head`. */
  lemma {:induction false} LeadLoadHead(P: Ticketed -> bool, g: Ticketed, p: nat) returns (g': Ticketed)
    requires Closed(P) && P(g) && Shaped(g) && Enabled(g.ring, StartObtain(p))
    ensures P(g') && Shaped(g') && p < |g'.own| && g'.own[p] == g'.H
    ensures g'.ring == Goto(g.ring, p, ObtainLoadTail(g.ring.head))
  {
    var m := Annotate(g, StartObtain(p));
    Moves(P, g, StartObtain(p));
    g' := Annotate(m, Step(p));
    Moves(P, m, Step(p));
    assert g'.ring.threads == g.ring.threads[p := ObtainLoadTail(g.ring.head)];
  }

  /** Finding the indices apart and winning the compare-exchange on `head`. */
  lemma {:induction false} LeadWinHead(P: Ticketed -> bool, g: Ticketed, p: nat) returns (g': Ticketed)
    requires Closed(P) && P(g) && Shaped(g) && Enabled(g.ring, Step(p))
    requires g.ring.threads[p] == ObtainLoadTail(g.ring.head) && g.own[p] == g.H && g.ring.head != g.ring.tail
    ensures P(g') && Shaped(g')
    ensures g'.ring == Goto(g.ring.(head := Succ(g.ring.head)), p, LoadClaim(g.ring.head))
  {
    var m := Annotate(g, Step(p));
    Moves(P, g, Step(p));
    g' := Annotate(m, Step(p));
    Moves(P, m, Step(p));
    assert g'.ring.threads == g.ring.threads[p := LoadClaim(g.ring.head)];
  }

  /** Claiming a reserved, available slot and taking the buffer out of it. */
  lemma {:induction false} LeadTake(P: Ticketed -> bool, g: Ticketed, p: nat, b: Buffer, h: Index)
    returns (g': Ticketed)
    requires Closed(P) && P(g) && Shaped(g) && Enabled(g.ring, Step(p)) && g.ring.threads[p] == LoadClaim(h)
    requires g.ring.status[h] == Available && g.ring.buffers[h] == Some(b)
    ensures P(g') && Shaped(g')
    ensures var s := g.ring;
      g'.ring == Goto(s.(buffers := s.buffers[h := None], status := s.status[h := Loading]), p, LoadRelease(h, Some(b)))
  {
    var g1 := Annotate(g, Step(p));
    Moves(P, g, Step(p));
    g' := Annotate(g1, Step(p));
    Moves(P, g1, Step(p));
    assert g'.ring.threads == g.ring.threads[p := LoadRelease(h, Some(b))];
  }

  /** Releasing the slot and handing out the buffer. */
  lemma {:induction false} LeadRelease(P: Ticketed -> bool, g: Ticketed, p: nat, b: Buffer, h: Index)
    returns (g': Ticketed)
    requires Closed(P) && P(g) && Shaped(g) && Enabled(g.ring, Step(p)) && g.ring.threads[p] == LoadRelease(h, Some(b))
    ensures P(g') && Shaped(g')
    ensures var s := g.ring;
      g'.ring == Goto(s.(status := s.status[h := Empty], hands := s.hands + {b}), p, Idle)
  {
    var g1 := Annotate(g, Step(p));
    Moves(P, g, Step(p));
    g' := Annotate(g1, Step(p));
    Moves(P, g1, Step(p));
    assert g'.ring.threads == g.ring.threads[p := Idle];
  }

  /** What a thread leaves that takes the buffer in the available slot at `head`. */
  function Taken(s: State, b: Buffer): State {
    s.(buffers := s.buffers[s.head := None], status := s.status[s.head := Empty],
       head := Succ(s.head), hands := s.hands + {b})
  }

  lemma {:induction false} LeadObtain(P: Ticketed -> bool, g: Ticketed, p: nat, b: Buffer) returns (g': Ticketed)
    requires Closed(P) && P(g) && Shaped(g) && Enabled(g.ring, StartObtain(p)) && g.ring.head != g.ring.tail
    requires g.ring.status[g.ring.head] == Available && g.ring.buffers[g.ring.head] == Some(b)
    ensures P(g') && Shaped(g') && g'.ring == Taken(g.ring, b)
  {
    var g1 := LeadLoadHead(P, g, p);
    var g2 := LeadWinHead(P, g1, p);
    var g3 := LeadTake(P, g2, p, b, g.ring.head);
    g' := LeadRelease(P, g3, p, b, g.ring.head);
    assert g'.ring.threads == g.ring.threads && g'.ring.status == g.ring.status[g.ring.head := Empty];
  }

  // Runs from a given state.

  lemma {:induction false} ReachesClosed(s: State)
    ensures Closed((g: Ticketed) => Reaches(s, g.ring))
  {
    forall g: Ticketed, a | Reaches(s, g.ring) && MayMove(g, a)
      ensures Reaches(s, Annotate(g, a).ring)
    {
      ReachesNext(s, g.ring, a);
    }
  }

  /** Books for a ring whose history does not matter. */
  function Unbooked(s: State): Ticketed {
    Ticketed(s, 0, 0, seq(|s.threads|, _ => 0), seq(|s.threads|, _ => 0))
  }

  lemma {:induction false} ReachStore(s: State, p: nat, b: Buffer, t: Index)
    requires Enabled(s, Step(p)) && s.threads[p] == StoreClaim(b, t)
    requires s.status[t] == Empty && s.buffers[t] == None
    ensures Reaches(s, Goto(s.(buffers := s.buffers[t := Some(b)], status := s.status[t := Available]), p, Idle))
  {
    ReachesHere(s);
    ReachesClosed(s);
    var g' := LeadStore((g: Ticketed) => Reaches(s, g.ring), Unbooked(s), p, b, t);
  }

  lemma {:induction false} ReachReturn(s: State, p: nat, b: Buffer)
    requires Enabled(s, StartReturn(p, b)) && Succ(s.tail) != s.head
    requires s.status[s.tail] == Empty && s.buffers[s.tail] == None
    ensures Reaches(s, Stored(s, b))
  {
    ReachesHere(s);
    ReachesClosed(s);
    var g' := LeadReturn((g: Ticketed) => Reaches(s, g.ring), Unbooked(s), p, b);
  }

  lemma {:induction false} ReachObtain(s: State, p: nat, b: Buffer)
    requires Enabled(s, StartObtain(p)) && s.head != s.tail
    requires s.status[s.head] == Available && s.buffers[s.head] == Some(b)
    ensures Reaches(s, Taken(s, b))
  {
    ReachesHere(s);
    ReachesClosed(s);
    var g' := LeadObtain((g: Ticketed) => Reaches(s, g.ring), Unbooked(s), p, b);
  }

  /** Some run from the start, in which no winning compare-exchange is lapped, ends at `g`. */
  ghost predicate Led(threads: nat, g: Ticketed) {
    exists run :: NoLapTo(Start(threads), run, g)
  }

  lemma {:induction false} LedClosed(threads: nat)
    ensures Closed((g: Ticketed) => Led(threads, g)) && Led(threads, Start(threads))
  {
    assert NoLapTo(Start(threads), [], Start(threads));
    forall g: Ticketed, a | Led(threads, g) && MayMove(g, a)
      ensures Led(threads, Annotate(g, a))
    {
      LedNext(threads, g, a);
    }
  }

  lemma {:induction false} LedNext(threads: nat, g: Ticketed, a: Action)
    requires Led(threads, g) && MayMove(g, a)
    ensures Led(threads, Annotate(g, a))
  {
    var run :| NoLapTo(Start(threads), run, g);
    var g' := Annotate(g, a);
    NoLapCons(g, a, [], g');
    NoLapConcat(Start(threads), run, g, [a] + [], g');
  }
}
