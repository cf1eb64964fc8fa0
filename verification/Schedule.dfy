/** Height-only schedule and lifecycle arithmetic over 32-bit heights. */
module Schedule {
  import opened Collections
  import opened Protocol

  datatype ScheduleError = InvalidParameters | InvalidRange | BeforeActivation | Overflow

  /** The first eight bytes of the schedule hash of a deployment and a name, as a number. */
  type ScheduleHash = (Bytes32, NameId) -> nat

  datatype Window = Window(start: u32, end: u32) {
    predicate Contains(height: u32) {
      start <= height < end
    }
  }

  datatype Parameters = Parameters(
    deploymentId: Bytes32,
    activationHeight: u32,
    epochBlocks: u32,
    windowBlocks: u32,
    commitMaturityBlocks: u32,
    commitTtlBlocks: u32,
    leaseBlocks: u32,
    cooldownBlocks: u32)
  {
    /** 0 < window <= maturity < ttl < epoch < lease, and the cooldown is one epoch. */
    predicate Validated() {
      && 0 < windowBlocks <= commitMaturityBlocks < commitTtlBlocks < epochBlocks < leaseBlocks
      && cooldownBlocks == epochBlocks
    }

    function Validate(): Result<Parameters, ScheduleError> {
      if || windowBlocks == 0
         || windowBlocks > commitMaturityBlocks
         || commitMaturityBlocks >= commitTtlBlocks
         || commitTtlBlocks >= epochBlocks
         || leaseBlocks <= epochBlocks
         || cooldownBlocks != epochBlocks
      then Err(InvalidParameters)
      else Ok(this)
    }

    function Epoch(height: u32): Result<u32, ScheduleError>
      requires epochBlocks > 0
    {
      if height < activationHeight then Err(BeforeActivation)
      else
        QuotientSpan(height - activationHeight, epochBlocks);
        Ok((height - activationHeight) / epochBlocks)
    }

    /** The name's displacement inside every epoch, small enough for the window to fit. */
    function Offset(hash: ScheduleHash, nameId: NameId): (offset: u32)
      requires 0 < windowBlocks <= epochBlocks
      ensures offset + windowBlocks <= epochBlocks
    {
      hash(deploymentId, nameId) % (epochBlocks - windowBlocks + 1)
    }

    function NameWindow(hash: ScheduleHash, nameId: NameId, epoch: u32): Result<Window, ScheduleError> {
      if Validate().Err? then Err(InvalidParameters)
      else
        match CheckedMul(epoch, epochBlocks)
        case None => Err(Overflow)
        case Some(span) =>
          match CheckedAdd(activationHeight, span)
          case None => Err(Overflow)
          case Some(epochStart) =>
            match CheckedAdd(epochStart, Offset(hash, nameId))
            case None => Err(Overflow)
            case Some(start) =>
              match CheckedAdd(start, windowBlocks)
              case None => Err(Overflow)
              case Some(end) => Ok(Window(start, end))
    }

    predicate AcceptsOperation(hash: ScheduleHash, nameId: NameId, height: u32)
      requires epochBlocks > 0
    {
      match Epoch(height)
      case Err(_) => false
      case Ok(epoch) =>
        var window := NameWindow(hash, nameId, epoch);
        window.Ok? && window.value.Contains(height)
    }

    predicate AcceptsCommit(commitHeight: u32, revealHeight: u32) {
      if commitHeight < activationHeight || revealHeight < commitHeight then false
      else
        var age := revealHeight - commitHeight;
        age >= commitMaturityBlocks && age < commitTtlBlocks
    }

    function Expiry(producerHeight: u32): Result<u32, ScheduleError> {
      match CheckedAdd(producerHeight, leaseBlocks)
      case None => Err(Overflow)
      case Some(height) => Ok(height)
    }

    /**
     Nonempty windows of the name that meet [start, end), newest first and clipped to it.
     They fail only with the newest window of the range; otherwise a height of the range lies
     in one of them exactly when an operation of the name is accepted there.
     */
    method OperationWindowsDescending(hash: ScheduleHash, nameId: NameId, start: u32, end: u32)
      returns (r: Result<seq<Window>, ScheduleError>)
      ensures !Validated() ==> r == Err(InvalidParameters)
      ensures Validated() && start >= end ==> r == Err(InvalidRange)
      ensures Validated() && start < end ==>
        (r.Err? <==> activationHeight < end && NameWindow(hash, nameId, Epoch(end - 1).value).Err?)
      ensures Validated() && start < end && r.Err? ==> r == Err(Overflow)
      ensures r.Ok? ==> forall i :: 0 <= i < |r.value| ==>
        start <= r.value[i].start < r.value[i].end <= end
      ensures r.Ok? ==> forall i, j :: 0 <= i < j < |r.value| ==> r.value[j].end <= r.value[i].start
      ensures r.Ok? && Validated() ==> forall height: u32 :: start <= height < end ==>
        (AcceptsOperation(hash, nameId, height)
         <==> InSome(r.value, height))
    {
      if Validate().Err? {
        return Err(InvalidParameters);
      }
      if start >= end {
        return Err(InvalidRange);
      }
      var effectiveStart := if start < activationHeight then activationHeight else start;
      if effectiveStart >= end {
        return Ok([]);
      }
      r := WindowsBetween(hash, nameId, effectiveStart, end);
      if r.Ok? {
        CoversAll(this, hash, nameId, r.value, start, effectiveStart, end);
      }
    }

    method WindowsBetween(hash: ScheduleHash, nameId: NameId, low: u32, high: u32)
      returns (r: Result<seq<Window>, ScheduleError>)
      requires Validated() && activationHeight <= low < high
      ensures r.Err? <==> NameWindow(hash, nameId, Epoch(high - 1).value).Err?
      ensures r.Err? ==> r == Err(Overflow)
      ensures r.Ok? ==> Covers(this, hash, nameId, r.value, low, high, Epoch(low).value - 1)
    {
      hide Covers, NameWindow;
      var firstEpoch, lastEpoch := Epoch(low).value, Epoch(high - 1).value;
      CoversNone(this, hash, nameId, low, high);
      var windows: seq<Window> := [];
      var epoch: int := lastEpoch;
      while epoch >= firstEpoch
        invariant firstEpoch - 1 <= epoch <= lastEpoch
        invariant epoch < lastEpoch ==> NameWindow(hash, nameId, lastEpoch).Ok?
        invariant Covers(this, hash, nameId, windows, low, high, epoch)
      {
        var window := NameWindow(hash, nameId, epoch);
        WindowsOverflowUpward(this, hash, nameId, epoch, lastEpoch);
        if window.Err? {
          return Err(Overflow);
        }
        var clipped := Clip(window.value, low, high);
        CoversStep(this, hash, nameId, windows, low, high, epoch);
        if clipped.start < clipped.end {
          windows := windows + [clipped];
        }
        epoch := epoch - 1;
      }
      return Ok(windows);
    }
  }

  function Clip(window: Window, low: u32, high: u32): Window {
    Window(if window.start < low then low else window.start,
           if window.end < high then window.end else high)
  }

  /** `ws` are, newest first, the accepted heights of [low, high) whose epoch is above `epoch`. */
  ghost predicate Covers(
    p: Parameters, hash: ScheduleHash, nameId: NameId, ws: seq<Window>, low: u32, high: u32, epoch: int)
  {
    && p.Validated()
    && p.activationHeight <= low
    && (forall i :: 0 <= i < |ws| ==>
          low <= ws[i].start < ws[i].end <= high && EpochStart(p, epoch + 1) <= ws[i].start)
    && (forall i, j :: 0 <= i < j < |ws| ==> ws[j].end <= ws[i].start)
    && (forall height: u32 :: low <= height < high ==>
          (p.AcceptsOperation(hash, nameId, height) && epoch < p.Epoch(height).value
           <==> InSome(ws, height)))
  }

  ghost predicate InSome(ws: seq<Window>, height: u32) {
    exists i :: 0 <= i < |ws| && ws[i].Contains(height)
  }

  /** No epoch of the range is above its last one, so nothing needs covering there. */
  lemma CoversNone(p: Parameters, hash: ScheduleHash, nameId: NameId, low: u32, high: u32)
    requires p.Validated() && p.activationHeight <= low < high
    ensures p.Epoch(low).value <= p.Epoch(high - 1).value
    ensures Covers(p, hash, nameId, [], low, high, p.Epoch(high - 1).value)
  {
    forall height: u32 | low <= height < high
      ensures p.Epoch(height).value <= p.Epoch(high - 1).value
    {
      EpochMonotone(p, height, high - 1);
    }
  }

  lemma CoversStep(
    p: Parameters, hash: ScheduleHash, nameId: NameId, ws: seq<Window>, low: u32, high: u32, epoch: u32)
    requires Covers(p, hash, nameId, ws, low, high, epoch)
    requires p.NameWindow(hash, nameId, epoch).Ok?
    ensures
      var clipped := Clip(p.NameWindow(hash, nameId, epoch).value, low, high);
      Covers(p, hash, nameId, if clipped.start < clipped.end then ws + [clipped] else ws, low, high, epoch - 1)
  {
    var window := p.NameWindow(hash, nameId, epoch).value;
    var clipped := Clip(window, low, high);
    var now := if clipped.start < clipped.end then ws + [clipped] else ws;
    WindowInsideEpoch(p, hash, nameId, epoch);
    EpochStartGrows(p, epoch, epoch + 1);
    forall height: u32 | low <= height < high
      ensures p.AcceptsOperation(hash, nameId, height) && epoch - 1 < p.Epoch(height).value
              <==> InSome(now, height)
    {
      if window.Contains(height) {
        HeightInWindow(p, hash, nameId, epoch, height);
        assert now[|ws|].Contains(height);
      } else if InSome(ws, height) {
        var i :| 0 <= i < |ws| && ws[i].Contains(height);
        assert now[i].Contains(height);
      }
    }
  }

  lemma CoversAll(
    p: Parameters, hash: ScheduleHash, nameId: NameId, ws: seq<Window>, start: u32, low: u32, high: u32)
    requires p.Validated()
    requires low == (if start < p.activationHeight then p.activationHeight else start) && low < high
    requires Covers(p, hash, nameId, ws, low, high, p.Epoch(low).value - 1)
    ensures forall height: u32 :: start <= height < high ==>
      (p.AcceptsOperation(hash, nameId, height) <==> InSome(ws, height))
  {
    forall height: u32 | start <= height < high
      ensures p.AcceptsOperation(hash, nameId, height) <==> InSome(ws, height)
    {
      if low <= height {
        EpochMonotone(p, low, height);
      }
    }
  }

  /** The first height of an epoch, computed without a width limit. */
  function EpochStart(p: Parameters, epoch: int): int {
    p.activationHeight + epoch * p.epochBlocks
  }

  lemma EpochStartGrows(p: Parameters, a: int, b: int)
    requires p.Validated() && a < b
    ensures EpochStart(p, a) + p.epochBlocks <= EpochStart(p, b)
  {
    ProductNonNegative(b - a - 1, p.epochBlocks);
    assert (b - a - 1) * p.epochBlocks == b * p.epochBlocks - a * p.epochBlocks - p.epochBlocks;
  }

  /** The epoch of a height is the only one whose span contains it. */
  lemma EpochSpan(p: Parameters, height: u32, epoch: u32)
    requires p.Validated() && p.activationHeight <= height
    ensures p.Epoch(height) == Ok(epoch)
            <==> EpochStart(p, epoch) <= height < EpochStart(p, epoch) + p.epochBlocks
  {
    var age := height - p.activationHeight;
    var own := age / p.epochBlocks;
    QuotientSpan(age, p.epochBlocks);
    if own < epoch {
      EpochStartGrows(p, own, epoch);
    } else if epoch < own {
      EpochStartGrows(p, epoch, own);
    }
  }

  lemma EpochMonotone(p: Parameters, a: u32, b: u32)
    requires p.Validated() && p.activationHeight <= a <= b
    ensures p.Epoch(a).value <= p.Epoch(b).value
  {
    EpochSpan(p, a, p.Epoch(a).value);
    EpochSpan(p, b, p.Epoch(b).value);
    if p.Epoch(b).value < p.Epoch(a).value {
      EpochStartGrows(p, p.Epoch(b).value, p.Epoch(a).value);
    }
  }

  /** A whole epoch later, the epoch number has grown. */
  lemma EpochAdvances(p: Parameters, a: u32, b: u32)
    requires p.Validated() && p.activationHeight <= a && a + p.epochBlocks <= b
    ensures p.Epoch(a).value < p.Epoch(b).value
  {
    EpochSpan(p, a, p.Epoch(a).value);
    EpochSpan(p, b, p.Epoch(b).value);
    if p.Epoch(b).value < p.Epoch(a).value {
      EpochStartGrows(p, p.Epoch(b).value, p.Epoch(a).value);
    }
  }

  /** The offset is the remainder of the hash of the deployment and the name. */
  lemma OffsetIsRemainder(p: Parameters, hash: ScheduleHash, nameId: NameId) returns (q: nat)
    requires p.Validated()
    ensures hash(p.deploymentId, nameId) == q * (p.epochBlocks - p.windowBlocks + 1) + p.Offset(hash, nameId)
  {
    var span := p.epochBlocks - p.windowBlocks + 1;
    QuotientSpan(hash(p.deploymentId, nameId), span);
    q := hash(p.deploymentId, nameId) / span;
  }

  /** Every offset that leaves room for the window is some hash's offset. */
  lemma EveryOffsetTaken(p: Parameters, nameId: NameId, offset: u32)
    requires p.Validated() && offset + p.windowBlocks <= p.epochBlocks
    ensures p.Offset((deployment: Bytes32, name: NameId) => offset, nameId) == offset
  {
    SmallRemainder(offset, p.epochBlocks - p.windowBlocks + 1);
  }

  /** Every window lies inside its own epoch, so windows of different epochs never meet. */
  lemma WindowInsideEpoch(p: Parameters, hash: ScheduleHash, nameId: NameId, epoch: u32)
    requires p.NameWindow(hash, nameId, epoch).Ok?
    ensures
      var w := p.NameWindow(hash, nameId, epoch).value;
      && w.start == EpochStart(p, epoch) + p.Offset(hash, nameId)
      && w.end == w.start + p.windowBlocks
      && EpochStart(p, epoch) <= w.start < w.end <= EpochStart(p, epoch) + p.epochBlocks
  {
  }

  /** A window exists exactly when its end is a 32-bit height. */
  lemma WindowExists(p: Parameters, hash: ScheduleHash, nameId: NameId, epoch: u32)
    requires p.Validated()
    ensures p.NameWindow(hash, nameId, epoch).Ok?
            <==> EpochStart(p, epoch) + p.Offset(hash, nameId) + p.windowBlocks < U32_LIMIT
  {
    ProductNonNegative(epoch, p.epochBlocks);
  }

  lemma WindowsOverflowUpward(p: Parameters, hash: ScheduleHash, nameId: NameId, a: u32, b: u32)
    requires p.Validated() && a <= b
    ensures p.NameWindow(hash, nameId, b).Ok? ==> p.NameWindow(hash, nameId, a).Ok?
  {
    WindowExists(p, hash, nameId, a);
    WindowExists(p, hash, nameId, b);
    if a < b {
      EpochStartGrows(p, a, b);
    }
  }

  lemma HeightInWindow(p: Parameters, hash: ScheduleHash, nameId: NameId, epoch: u32, height: u32)
    requires p.NameWindow(hash, nameId, epoch).Ok?
    requires p.NameWindow(hash, nameId, epoch).value.Contains(height)
    ensures p.Validated() && p.Epoch(height) == Ok(epoch) && p.AcceptsOperation(hash, nameId, height)
  {
    WindowInsideEpoch(p, hash, nameId, epoch);
    ProductNonNegative(epoch, p.epochBlocks);
    EpochSpan(p, height, epoch);
  }

  /** An operation is accepted at a height exactly when some window of the name contains it. */
  lemma AcceptedInSomeWindow(p: Parameters, hash: ScheduleHash, nameId: NameId, height: u32)
    requires p.Validated()
    ensures p.AcceptsOperation(hash, nameId, height)
            <==> exists epoch: u32 :: p.NameWindow(hash, nameId, epoch).Ok?
                                      && p.NameWindow(hash, nameId, epoch).value.Contains(height)
  {
    if epoch: u32 :| p.NameWindow(hash, nameId, epoch).Ok?
                     && p.NameWindow(hash, nameId, epoch).value.Contains(height)
    {
      HeightInWindow(p, hash, nameId, epoch, height);
    }
  }

  /** The accepted heights, in unlimited arithmetic: those of each epoch's window that ends within 32 bits. */
  lemma AcceptedHeights(p: Parameters, hash: ScheduleHash, nameId: NameId, height: u32)
    requires p.Validated()
    ensures p.AcceptsOperation(hash, nameId, height)
            <==> exists epoch: u32 ::
                   var start := EpochStart(p, epoch) + p.Offset(hash, nameId);
                   start <= height < start + p.windowBlocks < U32_LIMIT
  {
    AcceptedInSomeWindow(p, hash, nameId, height);
    forall epoch: u32
      ensures p.NameWindow(hash, nameId, epoch).Ok?
              <==> EpochStart(p, epoch) + p.Offset(hash, nameId) + p.windowBlocks < U32_LIMIT
      ensures p.NameWindow(hash, nameId, epoch).Ok? ==>
        p.NameWindow(hash, nameId, epoch).value.start == EpochStart(p, epoch) + p.Offset(hash, nameId)
        && p.NameWindow(hash, nameId, epoch).value.end
           == EpochStart(p, epoch) + p.Offset(hash, nameId) + p.windowBlocks
    {
      WindowExists(p, hash, nameId, epoch);
      if p.NameWindow(hash, nameId, epoch).Ok? {
        WindowInsideEpoch(p, hash, nameId, epoch);
      }
    }
    hide EpochStart, Parameters.NameWindow, Parameters.Offset, Parameters.AcceptsOperation;
  }

  /** A COMMIT included inside a window of a name cannot be revealed inside that same window. */
  lemma CommitNotRevealedInItsWindow(
    p: Parameters, hash: ScheduleHash, nameId: NameId, epoch: u32, commitHeight: u32, revealHeight: u32)
    requires p.NameWindow(hash, nameId, epoch).Ok?
    requires p.NameWindow(hash, nameId, epoch).value.Contains(commitHeight)
    requires p.AcceptsCommit(commitHeight, revealHeight)
    ensures !p.NameWindow(hash, nameId, epoch).value.Contains(revealHeight)
  {
    WindowInsideEpoch(p, hash, nameId, epoch);
  }

  /** All the heights at which one COMMIT can be revealed for a name belong to one window. */
  lemma CommitMeetsOneWindow(
    p: Parameters, hash: ScheduleHash, nameId: NameId, commitHeight: u32, a: u32, b: u32)
    requires p.Validated()
    requires p.AcceptsCommit(commitHeight, a) && p.AcceptsCommit(commitHeight, b)
    requires p.AcceptsOperation(hash, nameId, a) && p.AcceptsOperation(hash, nameId, b)
    ensures p.Epoch(a) == p.Epoch(b)
  {
    var ea, eb := p.Epoch(a).value, p.Epoch(b).value;
    WindowInsideEpoch(p, hash, nameId, ea);
    WindowInsideEpoch(p, hash, nameId, eb);
    if ea < eb {
      EpochStartGrows(p, ea, eb);
    } else if eb < ea {
      EpochStartGrows(p, eb, ea);
    }
  }
}
