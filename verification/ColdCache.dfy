/** The cache together with its cold file: where the file puts an object is where nothing is that the cache
    or a session reads. */
module ColdCache {
  import opened RegionChunks
  import opened RegionState
  import opened RegionMemory
  import opened RegionHistory
  import C = Cache
  import CR = CacheRuns
  import RP = RingPointer
  import RegionEvacuate
  import RegionTurn

  datatype Full = Full(c: C.State, m: Memory)

  datatype Act =
    | Create(id: nat, loc: C.Loc, data: C.Bytes)        // in a ring
    | MoveIn(id: nat, loc: C.Loc, session: nat)         // to a ring, from a ring or from the cold file
    | MoveOut(id: nat)                                  // to the cold file
    | Release(id: nat, session: nat)
    | Pad(level: nat, n: nat) | Pass(level: nat) | SwapOut(level: nat) | MakeFree(level: nat, k: nat)
    | Open | Acquire(session: nat, id: nat) | Close(session: nat)
    | Walk(junk: nat, id: nat)                          // an evacuation passes a position of the file
    | InFile(step: Step)                                // what else the cold file does

  /** Steps of the cold file that concern no object of the cache. */
  predicate Internal(step: Step) {
    step.Dealloc? || step.CopyObject? || step.EndEvacuation? || step.Hand? || step.Free? || step.CloseRegion?
    || step.ReuseRegion? || step.ExtendFile? || step.DoubleRegions? || step.QueueRegion?
  }

  /** The cold chunk of an object. */
  function ColdIndex(f: Full, id: nat): nat
    requires id in f.c.ids && f.c.ids[id].Cold? && LiveAt(f.m.s, f.c.ids[id].off)
  {
    LiveIndex(f.m.s.live, f.c.ids[id].off)
  }

  predicate InCold(f: Full, id: nat) { id in f.c.ids && f.c.ids[id].Cold? && LiveAt(f.m.s, f.c.ids[id].off) }

  /** What the cold file does in a step. */
  function FileStep(f: Full, a: Act): (r: seq<Step>)
    ensures |r| <= 1
  {
    match a
    case MoveIn(id, _, session) => if InCold(f, id) then [Drop(ColdIndex(f, id), session)] else []
    case MoveOut(id) => if id in f.c.ids then [Alloc(f.c.ids[id].size)] else []
    case Release(id, session) => if InCold(f, id) then [Drop(ColdIndex(f, id), session)] else []
    case Open => [OpenSession]
    case Acquire(session, id) => if InCold(f, id) then [Hold(session, ColdIndex(f, id))] else []
    case Close(session) => [CloseSession(session)]
    case Walk(junk, _) => [Visit(junk)]
    case InFile(step) => [step]
    case _ => []
  }

  /** What the cache does in a step. */
  function CacheStep(f: Full, a: Act): (r: seq<CR.Step>)
    ensures |r| <= 1
  {
    match a
    case Create(id, loc, data) => [CR.Create(id, loc, data)]
    case MoveIn(id, loc, _) => [CR.Move(id, loc)]
    case MoveOut(id) => if id in f.c.ids then [CR.Move(id, C.Cold(f.m.s.pos, f.c.ids[id].size))] else []
    case Release(id, _) => [CR.Release(id)]
    case Pad(level, n) => [CR.Pad(level, n)]
    case Pass(level) => [CR.Pass(level)]
    case SwapOut(level) => [CR.SwapOut(level)]
    case MakeFree(level, k) => [CR.MakeFree(level, k)]
    case Open => [CR.Open(f.m.clock)]
    case Acquire(session, id) => [CR.Acquire(session, id)]
    case Close(session) => [CR.Close(session)]
    case Walk(_, id) =>
      if f.m.s.items != [] && LiveAt(f.m.s, f.m.at) && id in f.c.ids
      then [CR.Move(id, C.Cold(f.m.s.items[0].cursor, f.c.ids[id].size))] else []
    case InFile(step) => if step.ExtendFile? then [CR.Grow(f.m.s.size)] else []
  }

  /** When a step can happen. Of a place in the cold file nothing is asked but what the file itself asks. */
  predicate Can(f: Full, a: Act) {
    && (forall s :: s in FileStep(f, a) ==> Enabled(f.m, s))
    && match a
       case Create(id, loc, data) => loc.InRing? && CR.Enabled(f.c, CR.Create(id, loc, data))
       case MoveIn(id, loc, _) => loc.InRing? && CR.Enabled(f.c, CR.Move(id, loc))
       case MoveOut(id) => id in f.c.ids && f.c.ids[id].InRing?
       case Release(id, session) => id in f.c.ids
       case Pad(level, n) => CR.Enabled(f.c, CR.Pad(level, n))
       case Pass(level) => CR.Enabled(f.c, CR.Pass(level))
       case SwapOut(level) => CR.Enabled(f.c, CR.SwapOut(level))
       case MakeFree(level, k) => CR.Enabled(f.c, CR.MakeFree(level, k))
       case Open => true
       case Acquire(session, id) => CR.Enabled(f.c, CR.Acquire(session, id))
       case Close(_) => true
       case Walk(_, id) => LiveAt(f.m.s, f.m.at) ==> id in f.c.ids && f.c.ids[id].Cold? && f.c.ids[id].off == f.m.at
       case InFile(step) => Internal(step)
  }

  /** The two are linked: what the cache has in the cold file is alive there, each object for one id, and what
      sessions read there is known to the file. */
  ghost predicate Linked(f: Full) {
    && f.c.sessions == f.m.sessions && |f.c.cold| == Top(f.m.s)
    && (forall id {:trigger Has(f, id)} :: id in f.c.ids && f.c.ids[id].Cold? ==> Has(f, id))
    && (forall i, j :: i in f.c.ids && j in f.c.ids && i != j && f.c.ids[i].Cold? && f.c.ids[j].Cold? ==>
          f.c.ids[i].off != f.c.ids[j].off)
    && (forall k {:trigger Known(f, f.c.held[k])} :: 0 <= k < |f.c.held| ==> Known(f, f.c.held[k]))
    && (forall k {:trigger Owned(f, k)} :: 0 <= k < |f.m.s.live| ==> Owned(f, k))
  }

  ghost predicate Owned(f: Full, k: int)
    requires 0 <= k < |f.m.s.live|
  {
    exists id :: id in f.c.ids && f.c.ids[id].Cold? && f.c.ids[id].off == f.m.s.live[k].off
  }

  ghost predicate Has(f: Full, id: nat)
    requires id in f.c.ids && f.c.ids[id].Cold?
  {
    exists k :: 0 <= k < |f.m.s.live| && f.m.s.live[k].off == f.c.ids[id].off && f.m.s.live[k].size == f.c.ids[id].size
  }

  ghost predicate Known(f: Full, h: C.Held) { h.loc.Cold? ==> Held(h.session, h.loc.off, h.loc.size) in f.m.held }

  ghost predicate FullInv(f: Full) { C.Inv(f.c) && MemInv(f.m) && Linked(f) }

  // ----- a place in the cold file is fresh

  lemma IdApart(f: Full, id: nat, x: nat, n: nat)
    requires Linked(f) && Untouched(f.m, x, n) && id in f.c.ids && f.c.ids[id].Cold?
    ensures C.ColdApart(f.c.ids[id], C.Cold(x, n))
  {
    assert Has(f, id);
    var k :| 0 <= k < |f.m.s.live| && f.m.s.live[k].off == f.c.ids[id].off && f.m.s.live[k].size == f.c.ids[id].size;
    assert Apart(f.m.s.live[k].off, f.m.s.live[k].off + f.m.s.live[k].size, x, x + n);
  }

  lemma HeldApart(f: Full, k: nat, x: nat, n: nat)
    requires Linked(f) && Untouched(f.m, x, n) && k < |f.c.held| && f.c.held[k].loc.Cold?
    ensures C.ColdApart(f.c.held[k].loc, C.Cold(x, n))
  {
    var h := f.c.held[k];
    assert Known(f, h);
    var j :| 0 <= j < |f.m.held| && f.m.held[j] == Held(h.session, h.loc.off, h.loc.size);
    assert Apart(f.m.held[j].off, f.m.held[j].off + f.m.held[j].size, x, x + n);
  }

  lemma ColdIsFresh(f: Full, x: nat, n: nat)
    requires Linked(f) && Untouched(f.m, x, n) && 0 < n && x + n <= Top(f.m.s)
    ensures C.Fresh(f.c, C.Cold(x, n))
  {
    forall id | id in f.c.ids && f.c.ids[id].Cold? ensures C.ColdApart(f.c.ids[id], C.Cold(x, n)) {
      IdApart(f, id, x, n);
    }
    forall k | 0 <= k < |f.c.held| && f.c.held[k].loc.Cold? ensures C.ColdApart(f.c.held[k].loc, C.Cold(x, n)) {
      HeldApart(f, k, x, n);
    }
  }

  lemma IdIn(f: Full, id: nat)
    requires C.Inv(f.c) && id in f.c.ids
    ensures C.LocIn(f.c, f.c.ids[id])
  {
    assert C.LiveOk(f.c, f.c.ids[id]);
  }

  /** The cache can do what it does. */
  lemma CacheCan(f: Full, a: Act)
    requires FullInv(f) && Can(f, a)
    ensures forall s :: s in CacheStep(f, a) ==> CR.Enabled(f.c, s)
  {
    match a
    case MoveOut(id) =>
      var n := f.c.ids[id].size;
      assert Alloc(n) in FileStep(f, a);
      AllocUntouched(f.m, n);
      ColdIsFresh(f, f.m.s.pos, n);
      IdIn(f, id);
    case Walk(junk, id) =>
      assert Visit(junk) in FileStep(f, a);
      if f.m.s.items != [] && LiveAt(f.m.s, f.m.at) { WalkCan(f, junk, id); }
    case _ =>
  }

  lemma WalkCan(f: Full, junk: nat, id: nat)
    requires FullInv(f) && Enabled(f.m, Visit(junk)) && LiveAt(f.m.s, f.m.at)
    requires id in f.c.ids && f.c.ids[id].Cold? && f.c.ids[id].off == f.m.at
    ensures f.m.s.live[LiveIndex(f.m.s.live, f.m.at)].size == f.c.ids[id].size
    ensures CR.Enabled(f.c, CR.Move(id, C.Cold(f.m.s.items[0].cursor, f.c.ids[id].size)))
  {
    SameSize(f, id);
    MoveUntouched(f.m, junk);
    IdIn(f, id);
    ColdIsFresh(f, f.m.s.items[0].cursor, f.c.ids[id].size);
  }

  /** The chunk at the place of an object is the object. */
  lemma SameSize(f: Full, id: nat)
    requires Linked(f) && Objects(f.m) && id in f.c.ids && f.c.ids[id].Cold?
    ensures LiveAt(f.m.s, f.c.ids[id].off)
            && f.m.s.live[LiveIndex(f.m.s.live, f.c.ids[id].off)].size == f.c.ids[id].size
  {
    assert Has(f, id);
    var k :| 0 <= k < |f.m.s.live| && f.m.s.live[k].off == f.c.ids[id].off && f.m.s.live[k].size == f.c.ids[id].size;
    OneChunk(f.m, LiveIndex(f.m.s.live, f.c.ids[id].off), k);
  }

  lemma OneChunk(m: Memory, j: nat, k: nat)
    requires Objects(m) && j < |m.s.live| && k < |m.s.live| && m.s.live[j].off == m.s.live[k].off
    ensures j == k
  {}

  lemma TwoChunks(m: Memory, j: nat, k: nat)
    requires Objects(m) && j < |m.s.live| && k < |m.s.live| && j != k
    ensures m.s.live[j].off != m.s.live[k].off
  {}

  // ----- steps

  /** A step: the file does its part, and the cache does its own. */
  ghost predicate Goes(f: Full, a: Act, f': Full) {
    && Can(f, a)
    && f'.m == (if FileStep(f, a) == [] then f.m else Next(f.m, FileStep(f, a)[0]))
    && (CacheStep(f, a) == [] ==> f'.c == f.c)
    && (forall s :: s in CacheStep(f, a) && CR.Enabled(f.c, s) ==> f'.c == CR.Next(f.c, s))
  }

  predicate SparedAct(f: Full, a: Act) { forall s :: s in FileStep(f, a) ==> Spared(f.m, s) }

  /** The cache takes its step. */
  lemma CacheGoes(f: Full, a: Act, f': Full)
    requires FullInv(f) && Goes(f, a, f')
    ensures if CacheStep(f, a) == [] then f'.c == f.c else CR.StepTo(f.c, CacheStep(f, a)[0], f'.c)
  {
    CacheCan(f, a);
    if CacheStep(f, a) != [] { assert CacheStep(f, a)[0] in CacheStep(f, a); }
  }

  lemma PartsInv(f: Full, a: Act, f': Full)
    requires FullInv(f) && Goes(f, a, f') && SparedAct(f, a)
    ensures C.Inv(f'.c) && MemInv(f'.m)
  {
    CacheGoes(f, a, f');
    if CacheStep(f, a) != [] { CR.NextInv(f.c, CacheStep(f, a)[0]); }
    if FileStep(f, a) != [] {
      assert FileStep(f, a)[0] in FileStep(f, a);
      NextInv(f.m, FileStep(f, a)[0]);
    }
  }

  /** Only ids in rings change, and the chunks do not. */
  lemma RingLinked(f: Full, f': Full)
    requires Linked(f) && f'.m.s.live == f.m.s.live && f'.m.held == f.m.held && f'.c.held == f.c.held
    requires f'.c.sessions == f'.m.sessions && |f'.c.cold| == Top(f'.m.s)
    requires forall id :: id in f'.c.ids && f'.c.ids[id].Cold? ==> id in f.c.ids && f'.c.ids[id] == f.c.ids[id]
    requires forall id :: id in f.c.ids && f.c.ids[id].Cold? ==> id in f'.c.ids && f'.c.ids[id] == f.c.ids[id]
    ensures Linked(f')
  {
    forall id | id in f'.c.ids && f'.c.ids[id].Cold? ensures Has(f', id) { assert Has(f, id); }
    forall k | 0 <= k < |f'.c.held| ensures Known(f', f'.c.held[k]) { assert Known(f, f.c.held[k]); }
    forall k | 0 <= k < |f'.m.s.live| ensures Owned(f', k) { assert Owned(f, k); }
  }

  /** An object leaves the cold file. */
  lemma DropLinked(f: Full, f': Full, id: nat, k: nat)
    requires Linked(f) && Objects(f.m) && k < |f.m.s.live| && f'.m.s.live == Without(f.m.s.live, k)
    requires id in f.c.ids && f.c.ids[id].Cold? && f.c.ids[id].off == f.m.s.live[k].off
             && !(id in f'.c.ids && f'.c.ids[id].Cold?)
    requires f'.m.held == f.m.held && f'.c.held == f.c.held && f'.c.sessions == f'.m.sessions
             && |f'.c.cold| == Top(f'.m.s)
    requires forall i :: i != id ==> (i in f'.c.ids <==> i in f.c.ids) && (i in f.c.ids ==> f'.c.ids[i] == f.c.ids[i])
    ensures Linked(f')
  {
    forall i | i in f'.c.ids && f'.c.ids[i].Cold? ensures Has(f', i) {
      assert Has(f, i);
      var j :| 0 <= j < |f.m.s.live| && f.m.s.live[j].off == f.c.ids[i].off && f.m.s.live[j].size == f.c.ids[i].size;
      assert f'.m.s.live[if j < k then j else j - 1] == f.m.s.live[j];
    }
    forall j | 0 <= j < |f'.m.s.live| ensures Owned(f', j) {
      var l := if j < k then j else j + 1;
      assert f'.m.s.live[j] == f.m.s.live[l] && Owned(f, l);
      var i :| i in f.c.ids && f.c.ids[i].Cold? && f.c.ids[i].off == f.m.s.live[l].off;
      TwoChunks(f.m, k, l);
      assert i in f'.c.ids && f'.c.ids[i] == f.c.ids[i];
    }
    forall j | 0 <= j < |f'.c.held| ensures Known(f', f'.c.held[j]) { assert Known(f, f.c.held[j]); }
  }

  /** An object comes into the cold file, or moves within it: its chunk is number `k` at `x`. */
  lemma PutLinked(f: Full, f': Full, id: nat, k: nat, x: nat, n: nat)
    requires Linked(f) && k < |f'.m.s.live| && f'.m.s.live[k].off == x && f'.m.s.live[k].size == n
    requires |f.m.s.live| <= |f'.m.s.live| <= |f.m.s.live| + 1 && (k < |f.m.s.live| ==> |f'.m.s.live| == |f.m.s.live|)
    requires forall j :: 0 <= j < |f'.m.s.live| && j != k ==> j < |f.m.s.live| && f'.m.s.live[j] == f.m.s.live[j]
    requires id in f.c.ids && f'.c.ids == f.c.ids[id := C.Cold(x, n)]
    requires if k < |f.m.s.live| then f.c.ids[id].Cold? && f.c.ids[id].off == f.m.s.live[k].off else f.c.ids[id].InRing?
    requires Objects(f.m) && forall j :: 0 <= j < |f.m.s.live| ==> f.m.s.live[j].off != x
    requires f'.m.held == f.m.held && f'.c.held == f.c.held && f'.c.sessions == f'.m.sessions
             && |f'.c.cold| == Top(f'.m.s)
    ensures Linked(f')
  {
    forall i | i in f'.c.ids && f'.c.ids[i].Cold? ensures Has(f', i) && (i != id ==> f'.c.ids[i].off != x) {
      if i != id {
        assert Has(f, i);
        var j :| 0 <= j < |f.m.s.live| && f.m.s.live[j].off == f.c.ids[i].off && f.m.s.live[j].size == f.c.ids[i].size;
        assert j != k;
        assert f'.m.s.live[j] == f.m.s.live[j];
      }
    }
    forall j | 0 <= j < |f'.m.s.live| ensures Owned(f', j) {
      if j == k {
        assert id in f'.c.ids && f'.c.ids[id].off == x;
      } else {
        PutOwned(f, f', id, k, x, n, j);
      }
    }
    forall j | 0 <= j < |f'.c.held| ensures Known(f', f'.c.held[j]) { assert Known(f, f.c.held[j]); }
  }

  lemma PutOwned(f: Full, f': Full, id: nat, k: nat, x: nat, n: nat, j: nat)
    requires Linked(f) && Objects(f.m) && j < |f.m.s.live| && j < |f'.m.s.live| && j != k
             && f'.m.s.live[j] == f.m.s.live[j]
    requires id in f.c.ids && f'.c.ids == f.c.ids[id := C.Cold(x, n)]
    requires if k < |f.m.s.live| then f.c.ids[id].Cold? && f.c.ids[id].off == f.m.s.live[k].off else f.c.ids[id].InRing?
    ensures Owned(f', j)
  {
    assert Owned(f, j);
    var i :| i in f.c.ids && f.c.ids[i].Cold? && f.c.ids[i].off == f.m.s.live[j].off;
    if k < |f.m.s.live| { TwoChunks(f.m, k, j); }
    assert i in f'.c.ids && f'.c.ids[i] == f.c.ids[i];
  }

  // ----- the link is kept

  lemma CreateLinked(f: Full, a: Act, f': Full)
    requires FullInv(f) && Goes(f, a, f') && (a.Create? || a.Pad? || a.Pass? || a.SwapOut? || a.MakeFree?)
    ensures Linked(f')
  {
    CacheGoes(f, a, f');
    RingLinked(f, f');
  }

  lemma MoveInLinked(f: Full, a: Act, f': Full)
    requires FullInv(f) && Goes(f, a, f') && a.MoveIn?
    ensures Linked(f')
  {
    CacheGoes(f, a, f');
    if f.c.ids[a.id].Cold? {
      SameSize(f, a.id);
      DropLinked(f, f', a.id, ColdIndex(f, a.id));
    } else {
      RingLinked(f, f');
    }
  }

  lemma ReleaseLinked(f: Full, a: Act, f': Full)
    requires FullInv(f) && Goes(f, a, f') && a.Release?
    ensures Linked(f')
  {
    CacheGoes(f, a, f');
    if f.c.ids[a.id].Cold? {
      SameSize(f, a.id);
      DropLinked(f, f', a.id, ColdIndex(f, a.id));
    } else {
      RingLinked(f, f');
    }
  }

  /** Nothing alive is where an object is put. */
  lemma NotThere(m: Memory, x: nat, n: nat)
    requires Untouched(m, x, n) && 0 < n && forall k :: 0 <= k < |m.s.live| ==> m.s.live[k].size > 0
    ensures forall j :: 0 <= j < |m.s.live| ==> m.s.live[j].off != x
  {
    forall j | 0 <= j < |m.s.live| ensures m.s.live[j].off != x {
      assert Apart(m.s.live[j].off, m.s.live[j].off + m.s.live[j].size, x, x + n);
    }
  }

  lemma MoveOutLinked(f: Full, a: Act, f': Full)
    requires FullInv(f) && Goes(f, a, f') && a.MoveOut?
    ensures Linked(f')
  {
    CacheGoes(f, a, f');
    var n, x := f.c.ids[a.id].size, f.m.s.pos;
    assert Alloc(n) in FileStep(f, a);
    AllocUntouched(f.m, n);
    NotThere(f.m, x, n);
    PutLinked(f, f', a.id, |f.m.s.live|, x, n);
  }

  lemma WalkLinked(f: Full, a: Act, f': Full)
    requires FullInv(f) && Goes(f, a, f') && a.Walk?
    ensures Linked(f')
  {
    CacheGoes(f, a, f');
    assert Visit(a.junk) in FileStep(f, a);
    if LiveAt(f.m.s, f.m.at) {
      WalkMoves(f, a.junk, a.id, f');
    } else {
      RingLinked(f, f');
    }
  }

  lemma WalkMoves(f: Full, junk: nat, id: nat, f': Full)
    requires FullInv(f) && Enabled(f.m, Visit(junk)) && LiveAt(f.m.s, f.m.at) && f'.m == Next(f.m, Visit(junk))
    requires id in f.c.ids && f.c.ids[id].Cold? && f.c.ids[id].off == f.m.at
    requires CR.StepTo(f.c, CR.Move(id, C.Cold(f.m.s.items[0].cursor, f.c.ids[id].size)), f'.c)
    ensures Linked(f')
  {
    var k, x, n := LiveIndex(f.m.s.live, f.m.at), f.m.s.items[0].cursor, f.c.ids[id].size;
    SameSize(f, id);
    MoveUntouched(f.m, junk);
    NotThere(f.m, x, n);
    MovedIds(f.c, id, C.Cold(x, n), f'.c);
    PutLinked(f, f', id, k, x, n);
  }

  /** Moving an object changes where it is, and nothing else that the link is about. */
  lemma MovedIds(c: C.State, id: nat, l: C.Loc, c': C.State)
    requires CR.StepTo(c, CR.Move(id, l), c')
    ensures c'.ids == c.ids[id := l] && c'.held == c.held && c'.sessions == c.sessions && |c'.cold| == |c.cold|
  {}

  /** Only what is read changes. */
  lemma ReadLinked(f: Full, f': Full)
    requires Linked(f) && f'.c.ids == f.c.ids && f'.m.s.live == f.m.s.live
    requires f'.c.sessions == f'.m.sessions && |f'.c.cold| == Top(f'.m.s)
    requires forall k :: 0 <= k < |f'.c.held| ==> Known(f', f'.c.held[k])
    ensures Linked(f')
  {
    forall id | id in f'.c.ids && f'.c.ids[id].Cold? ensures Has(f', id) { assert Has(f, id); }
    forall k | 0 <= k < |f'.m.s.live| ensures Owned(f', k) { assert Owned(f, k); }
  }

  lemma KnownMore(f: Full, f': Full, h: C.Held)
    requires Known(f, h) && forall x :: x in f.m.held ==> x in f'.m.held
    ensures Known(f', h)
  {}

  /** What the file does when a session reads where an object is. */
  lemma AcquireFile(f: Full, a: Act, f': Full)
    requires Linked(f) && Objects(f.m) && Goes(f, a, f') && a.Acquire? && a.id in f.c.ids
    ensures f'.m.s == f.m.s && f'.m.sessions == f.m.sessions && forall x :: x in f.m.held ==> x in f'.m.held
    ensures f.c.ids[a.id].Cold? ==> Held(a.session, f.c.ids[a.id].off, f.c.ids[a.id].size) in f'.m.held
  {
    if f.c.ids[a.id].Cold? { SameSize(f, a.id); }
  }

  lemma AcquireCache(f: Full, a: Act, f': Full)
    requires FullInv(f) && Goes(f, a, f') && a.Acquire?
    ensures a.id in f.c.ids && f'.c == f.c.(held := f.c.held + [C.Held(a.session, f.c.ids[a.id])])
  {
    CacheGoes(f, a, f');
  }

  lemma AcquireLinked(f: Full, a: Act, f': Full)
    requires FullInv(f) && Goes(f, a, f') && a.Acquire?
    ensures Linked(f')
  {
    AcquireCache(f, a, f');
    AcquireFile(f, a, f');
    forall k | 0 <= k < |f'.c.held| ensures Known(f', f'.c.held[k]) {
      if k < |f.c.held| { assert Known(f, f.c.held[k]); KnownMore(f, f', f.c.held[k]); }
    }
    ReadLinked(f, f');
  }

  /** What both do when a session is opened or closed. */
  lemma SessionParts(f: Full, a: Act, f': Full)
    requires FullInv(f) && Goes(f, a, f') && (a.Open? || a.Close?)
    ensures f'.c.ids == f.c.ids && f'.c.cold == f.c.cold && f'.m.s == f.m.s && f'.c.sessions == f'.m.sessions
    ensures forall h :: h in f'.c.held ==> h in f.c.held && (a.Close? ==> h.session != a.session)
    ensures forall x :: x in f.m.held && (a.Close? ==> x.session != a.session) ==> x in f'.m.held
  {
    CacheGoes(f, a, f');
  }

  lemma SessionLinked(f: Full, a: Act, f': Full)
    requires FullInv(f) && Goes(f, a, f') && (a.Open? || a.Close?)
    ensures Linked(f')
  {
    SessionParts(f, a, f');
    forall k | 0 <= k < |f'.c.held| ensures Known(f', f'.c.held[k]) {
      var h := f'.c.held[k];
      assert h in f'.c.held;
      var j :| 0 <= j < |f.c.held| && f.c.held[j] == h;
      assert Known(f, f.c.held[j]);
    }
    ReadLinked(f, f');
  }

  /** Steps of the file leave live objects, sessions and what they read alone, and the length of the file, unless
      it is extended. */
  lemma InternalKeeps(m: Memory, step: Step)
    requires Internal(step) && Enabled(m, step) && m.over.None?
    ensures var m' := Next(m, step);
            && m'.s.live == m.s.live && m'.sessions == m.sessions && m'.held == m.held
            && Top(m'.s) == Top(m.s) + (if step.ExtendFile? then m.s.size else 0)
  {
    if step.DoubleRegions? { RegionTurn.HalfTop(|m.s.used|, m.s.size); }
    if step.EndEvacuation? { RegionEvacuate.FinishKeeps(m.s); }
    if step.ExtendFile? { RegionEvacuate.NextStart(|m.s.used|, m.s.size); }
  }

  lemma InFileLinked(f: Full, a: Act, f': Full)
    requires FullInv(f) && Goes(f, a, f') && a.InFile?
    ensures Linked(f')
  {
    CacheGoes(f, a, f');
    assert a.step in FileStep(f, a);
    InternalKeeps(f.m, a.step);
    RingLinked(f, f');
  }

  lemma GoesInv(f: Full, a: Act, f': Full)
    requires FullInv(f) && Goes(f, a, f') && SparedAct(f, a)
    ensures FullInv(f')
  {
    PartsInv(f, a, f');
    match a
    case Create(_, _, _) => CreateLinked(f, a, f');
    case MoveIn(_, _, _) => MoveInLinked(f, a, f');
    case MoveOut(_) => MoveOutLinked(f, a, f');
    case Release(_, _) => ReleaseLinked(f, a, f');
    case Pad(_, _) => CreateLinked(f, a, f');
    case Pass(_) => CreateLinked(f, a, f');
    case SwapOut(_) => CreateLinked(f, a, f');
    case MakeFree(_, _) => CreateLinked(f, a, f');
    case Open => SessionLinked(f, a, f');
    case Acquire(_, _) => AcquireLinked(f, a, f');
    case Close(_) => SessionLinked(f, a, f');
    case Walk(_, _) => WalkLinked(f, a, f');
    case InFile(_) => InFileLinked(f, a, f');
  }

  // ----- runs

  /** Empty rings of the given sizes, and a fresh cold file. */
  function Start(sizes: seq<nat>, cold: nat): Full {
    var rings := seq(|sizes|,
                     k requires 0 <= k < |sizes| => C.Ring(seq(sizes[k], _ => 0), 0, RP.Pos(0, 0), sizes[k], [], 0,
                                                              map[]));
    Full(C.State(rings, seq(cold, _ => 0), map[], {}, []), RegionMemory.Init(cold))
  }

  lemma StartInv(sizes: seq<nat>, cold: nat)
    requires (forall k :: 0 <= k < |sizes| ==> sizes[k] > 0 && sizes[k] % 8 == 0) && cold > 0 && cold % 8 == 0
    ensures FullInv(Start(sizes, cold))
  {
    RegionMemory.InitInv(cold);
  }

  ghost predicate ActAt(states: seq<Full>, acts: seq<Act>, i: nat)
    requires |states| == |acts| + 1 && i < |acts|
  {
    Goes(states[i], acts[i], states[i + 1])
  }

  /** A run of the cache and its cold file. The rings have a multiple of 8 bytes: the dummy objects at their ends
      reach the end if and only if they do. */
  ghost predicate FullRun(states: seq<Full>, acts: seq<Act>, sizes: seq<nat>, cold: nat) {
    && (forall k :: 0 <= k < |sizes| ==> sizes[k] > 0 && sizes[k] % 8 == 0) && cold > 0 && cold % 8 == 0
    && |states| == |acts| + 1 && states[0] == Start(sizes, cold)
    && forall i: nat {:trigger ActAt(states, acts, i)} :: i < |acts| ==> ActAt(states, acts, i)
  }

  ghost predicate SparedActs(states: seq<Full>, acts: seq<Act>, n: nat)
    requires |states| == |acts| + 1 && n <= |acts|
  {
    forall i {:trigger SparedAct(states[i], acts[i])} :: 0 <= i < n ==> SparedAct(states[i], acts[i])
  }

  lemma {:induction false} FullRunInv(states: seq<Full>, acts: seq<Act>, sizes: seq<nat>, cold: nat, i: nat)
    requires FullRun(states, acts, sizes, cold) && i < |states| && SparedActs(states, acts, i)
    ensures FullInv(states[i])
    decreases i
  {
    if i == 0 {
      StartInv(sizes, cold);
    } else {
      FullRunInv(states, acts, sizes, cold, i - 1);
      assert ActAt(states, acts, i - 1) && SparedAct(states[i - 1], acts[i - 1]);
      GoesInv(states[i - 1], acts[i - 1], states[i]);
    }
  }

  /** The map that a run stands for: what was created and not released. */
  function Effect(m: map<nat, C.Bytes>, a: Act): map<nat, C.Bytes> {
    match a
    case Create(id, _, data) => m[id := data]
    case Release(id, _) => m - {id}
    case _ => m
  }

  function Effects(acts: seq<Act>): map<nat, C.Bytes> {
    if acts == [] then map[] else Effect(Effects(acts[..|acts| - 1]), acts[|acts| - 1])
  }

  lemma ActRefines(f: Full, a: Act, f': Full)
    requires FullInv(f) && Goes(f, a, f')
    ensures (forall id :: id in f.c.ids ==> C.LocIn(f.c, f.c.ids[id]))
            && (forall id :: id in f'.c.ids ==> C.LocIn(f'.c, f'.c.ids[id]))
    ensures C.Contents(f'.c) == Effect(C.Contents(f.c), a)
  {
    CacheGoes(f, a, f');
    CR.LocsGood(f.c);
    if CacheStep(f, a) != [] { CR.StepRefines(f.c, CacheStep(f, a)[0], f'.c); }
  }

  /** After every run that is spared, the cache holds exactly what was created and not released, byte for byte,
      wherever objects were moved: from ring to ring, into the cold file, within it, and back. */
  lemma {:induction false} RunRefines(states: seq<Full>, acts: seq<Act>, sizes: seq<nat>, cold: nat, i: nat)
    requires FullRun(states, acts, sizes, cold) && i < |states| && SparedActs(states, acts, i)
    ensures forall id :: id in states[i].c.ids ==> C.LocIn(states[i].c, states[i].c.ids[id])
    ensures C.Contents(states[i].c) == Effects(acts[..i])
    decreases i
  {
    if i > 0 {
      RunRefines(states, acts, sizes, cold, i - 1);
      FullRunInv(states, acts, sizes, cold, i - 1);
      assert ActAt(states, acts, i - 1);
      ActRefines(states[i - 1], acts[i - 1], states[i]);
      assert acts[..i][..i - 1] == acts[..i - 1];
    }
  }

  lemma ActHeld(f: Full, a: Act, f': Full, h: C.Held)
    requires FullInv(f) && Goes(f, a, f') && h in f.c.held && h.session in f'.c.sessions
    ensures C.LocIn(f.c, h.loc) && C.LocIn(f'.c, h.loc) && h in f'.c.held && C.Read(f'.c, h.loc) == C.Read(f.c, h.loc)
  {
    CacheGoes(f, a, f');
    CR.LocsGood(f.c);
    if CacheStep(f, a) != [] { CR.HeldStable(f.c, CacheStep(f, a)[0], h, f'.c); }
  }

  /** What a session has read keeps its bytes for as long as the session stays open. */
  lemma {:induction false} RunHeld(states: seq<Full>, acts: seq<Act>, sizes: seq<nat>, cold: nat, i: nat, j: nat,
                                   h: C.Held)
    requires FullRun(states, acts, sizes, cold) && i <= j < |states| && SparedActs(states, acts, j)
             && h in states[i].c.held
    requires forall k :: i <= k <= j ==> h.session in states[k].c.sessions
    ensures h in states[j].c.held && C.LocIn(states[i].c, h.loc) && C.LocIn(states[j].c, h.loc)
    ensures C.Read(states[j].c, h.loc) == C.Read(states[i].c, h.loc)
    decreases j
  {
    FullRunInv(states, acts, sizes, cold, i);
    CR.LocsGood(states[i].c);
    if i < j {
      RunHeld(states, acts, sizes, cold, i, j - 1, h);
      FullRunInv(states, acts, sizes, cold, j - 1);
      assert ActAt(states, acts, j - 1);
      ActHeld(states[j - 1], acts[j - 1], states[j], h);
    }
  }
}
