/** The steps of the region allocator, on its counters and sets. */
module RegionRuns {
  import opened RegionChunks
  import opened RegionState
  import opened RegionSwitch

  datatype Step =
    | AllocateStep(n: nat) | ReleaseStep(k: nat, tag: nat) | DeallocateStep(k: nat)
    | MoveStep(k: nat) | FinishStep | PublishStep | FireStep(k: nat)
    | CloseStep | ReuseStep(r: nat) | ExtendStep | DoubleStep | QueueStep(r: nat)

  /** When a step can happen. Doubling is taken as safe: what is outstanding in empty regions fits the
      counters of their neighbours. */
  predicate Enabled(s: State, step: Step) {
    && s.size > 0
    && match step
       case AllocateStep(n) => CanAllocate(s, n)
       case ReleaseStep(k, _) => k < |s.live|
       case DeallocateStep(k) => k < |s.dead| && Region(s.dead[k].off, s.size) < |s.used|
       case MoveStep(k) => CanMove(s, k)
       case FinishStep => CanFinish(s) && Region(s.items[0].src, s.size) < |s.used|
         && Region(s.items[0].dest, s.size) < |s.used|
       case PublishStep => true
       case FireStep(k) => CanFire(s, k)
       case CloseStep => s.open && s.cur < |s.used|
       case ReuseStep(r) => !s.open && r in s.free && r < |s.used|
       case ExtendStep => !s.open && |s.used| < MAX_REGIONS
       case DoubleStep => CanDouble(s) && DoublingSafe(s)
       case QueueStep(r) => CanQueue(s, r) && s.cur < |s.used|
  }

  function Next(s: State, step: Step): State
    requires Enabled(s, step)
  {
    match step
    case AllocateStep(n) => Allocate(s, n)
    case ReleaseStep(k, tag) => Release(s, k, tag)
    case DeallocateStep(k) => Deallocate(s, k)
    case MoveStep(k) => Move(s, k)
    case FinishStep => Finish(s)
    case PublishStep => Publish(s)
    case FireStep(k) => Fire(s, k)
    case CloseStep => Close(s)
    case ReuseStep(r) => Reuse(s, r)
    case ExtendStep => Extend(s)
    case DoubleStep => Double(s)
    case QueueStep(r) => Queue(s, r)
  }

  lemma NextInv(s: State, step: Step)
    requires Inv(s) && Enabled(s, step)
    ensures Inv(Next(s, step))
  {
    match step
    case AllocateStep(n) => AllocateInv(s, n);
    case ReleaseStep(k, tag) => ReleaseInv(s, k, tag);
    case DeallocateStep(k) => DeallocateInv(s, k);
    case MoveStep(k) => MoveInv(s, k);
    case FinishStep => FinishInv(s);
    case PublishStep => PublishInv(s);
    case FireStep(k) => FireInv(s, k);
    case CloseStep => CloseInv(s);
    case ReuseStep(r) => ReuseInv(s, r);
    case ExtendStep => ExtendInv(s);
    case DoubleStep => DoubleInv(s);
    case QueueStep(r) => QueueInv(s, r);
  }
}
