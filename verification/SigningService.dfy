/** Every interleaving of `sign` calls on one platform's warm pool.

    One step is one critical section, or one await that ends. Task cancellation is not a
    step; a drained page is closed in the step that drains it. */
module SigningService {
  import opened Lists
  import opened Options
  import opened Dicts
  import opened BindingKey
  import opened WarmPool
  import opened FakePage

  datatype Config = Config(
    digest: string -> string,
    hash: (string, nat) -> string,
    platform: Platform,
    refresh: int,
    openTimeout: int,
    signProxy: string)

  datatype Request = Request(jar: seq<Entry>, proxy: string, plan: Plan)

  /** What the browser holds: the cookies and the exit a page was opened with. */
  datatype Page = Page(jar: seq<Entry>, proxy: string, closed: bool)

  type Warm = Slot<nat>

  datatype Result =
    | Answered(signed: map<string, string>, page: nat)
    | Failed
    | Crashed

  /** Where a `sign` call is between two of its awaits. */
  datatype Pc =
    | Checking
    | Parked
    | Opening(worn: Option<Warm>)
    | OpenFailed(retryable: bool)
    | Holding(slot: Warm)
    | Signed(slot: Warm, signed: map<string, string>)
    | Spoiled(slot: Warm)
    | Disposing(slot: Warm)
    | Finished(result: Result)

  datatype Caller = Caller(
    jar: seq<Entry>, proxy: string, plan: Plan, binding: string, attempt: nat, deadline: int, pc: Pc)

  datatype State = State(
    cfg: Config, pool: Pool<nat>, pages: map<nat, Page>, callers: map<nat, Caller>, now: int)

  datatype Step =
    | Arrive(caller: nat, request: Request)
    | Check(caller: nat)
    | NapEnds(caller: nat)
    | CloseWorn(caller: nat)
    | Open(caller: nat, page: nat)
    | FailOpen(caller: nat, rpcError: bool)
    | ReturnCredit(caller: nat)
    | Sign(caller: nat)
    | FailSign(caller: nat)
    | Release(caller: nat)
    | Discard(caller: nat)
    | Dispose(caller: nat)
    | Shutdown
    | Tick(later: int)

  /** Where a page for this request goes out: through its own proxy, or failing that the one the
      service is configured with. */
  function ExitFor(cfg: Config, proxy: string): string
  {
    if proxy != "" then proxy else cfg.signProxy
  }

  function WithPc(s: State, c: nat, pc: Pc): State
    requires c in s.callers
  {
    s.(callers := s.callers[c := s.callers[c].(pc := pc)])
  }

  /** The end of one attempt: a second try from scratch, then failure. */
  function NextAttempt(s: State, c: nat): State
    requires c in s.callers
  {
    var k := s.callers[c];
    if k.attempt == 1 then
      s.(callers := s.callers[c := k.(attempt := 2, deadline := s.now + s.cfg.openTimeout, pc := Checking)])
    else
      WithPc(s, c, Finished(Failed))
  }

  ghost predicate Enabled(s: State, step: Step)
  {
    match step
    case Arrive(c, _) => c !in s.callers
    case Check(c) => c in s.callers && (s.callers[c].pc.Checking? || c in s.pool.woken)
    case NapEnds(c) => c in s.callers && c in s.pool.blocked
    case CloseWorn(c) =>
      && c in s.callers && s.callers[c].pc.Opening? && s.callers[c].pc.worn.Some?
      && s.callers[c].pc.worn.value.page in s.pages
    case Open(c, page) => c in s.callers && s.callers[c].pc == Opening(None) && page !in s.pages
    case FailOpen(c, _) => c in s.callers && s.callers[c].pc == Opening(None)
    case ReturnCredit(c) => c in s.callers && s.callers[c].pc.OpenFailed?
    case Sign(c) => c in s.callers && s.callers[c].pc.Holding? && s.callers[c].pc.slot.page in s.pages
    case FailSign(c) => c in s.callers && s.callers[c].pc.Holding?
    case Release(c) => c in s.callers && s.callers[c].pc.Signed?
    case Discard(c) => c in s.callers && s.callers[c].pc.Spoiled?
    case Dispose(c) =>
      c in s.callers && s.callers[c].pc.Disposing? && s.callers[c].pc.slot.page in s.pages
    case Shutdown => true
    case Tick(later) => later >= s.now
  }

  function ClosePage(pages: map<nat, Page>, page: nat): map<nat, Page>
    requires page in pages
  {
    pages[page := pages[page].(closed := true)]
  }

  function AfterCheck(s: State, c: nat): State
    requires c in s.callers
  {
    var k := s.callers[c];
    var (pool, grant) := Take(s.pool.(woken := s.pool.woken - {c}), k.binding, s.now, s.cfg.refresh);
    match grant
    case Hit(slot) => WithPc(s.(pool := pool), c, Holding(slot))
    case Refresh(worn) => WithPc(s.(pool := pool), c, Opening(Some(worn)))
    case Rebind(worn) => WithPc(s.(pool := pool), c, Opening(Some(worn)))
    case Launch => WithPc(s.(pool := pool), c, Opening(None))
    case Nothing =>
      if k.deadline - s.now <= 0 then NextAttempt(s.(pool := pool), c)
      else WithPc(s.(pool := Park(pool, c)), c, Parked)
  }

  function Apply(s: State, step: Step): State
    requires Enabled(s, step)
  {
    match step
    case Arrive(c, r) =>
      var exit := ExitFor(s.cfg, r.proxy);
      s.(callers := s.callers[c := Caller(
        r.jar, exit, r.plan, Key(s.cfg.digest, r.jar, exit), 1, s.now + s.cfg.openTimeout, Checking)])
    case Check(c) => AfterCheck(s, c)
    case NapEnds(c) =>
      s.(pool := s.pool.(blocked := DropFirst(s.pool.blocked, c), woken := s.pool.woken + {c}))
    case CloseWorn(c) =>
      WithPc(s.(pages := ClosePage(s.pages, s.callers[c].pc.worn.value.page)), c, Opening(None))
    case Open(c, page) =>
      var k := s.callers[c];
      WithPc(s.(pages := s.pages[page := Page(k.jar, k.proxy, false)]), c,
             Holding(Slot(page, s.now, k.binding)))
    case FailOpen(c, rpcError) => WithPc(s, c, OpenFailed(rpcError))
    case ReturnCredit(c) =>
      var t := s.(pool := GiveUp(s.pool));
      if s.callers[c].pc.retryable then NextAttempt(t, c) else WithPc(t, c, Finished(Crashed))
    case Sign(c) =>
      var slot := s.callers[c].pc.slot;
      var page := s.pages[slot.page];
      WithPc(s, c,
        if page.closed then Spoiled(slot)
        else Signed(slot, Signature(s.cfg.hash, s.cfg.platform, page.jar, s.callers[c].plan)))
    case FailSign(c) => WithPc(s, c, Spoiled(s.callers[c].pc.slot))
    case Release(c) =>
      var pc := s.callers[c].pc;
      WithPc(s.(pool := PutBack(s.pool, pc.slot)), c, Finished(Answered(pc.signed, pc.slot.page)))
    case Discard(c) => WithPc(s.(pool := GiveUp(s.pool)), c, Disposing(s.callers[c].pc.slot))
    case Dispose(c) => NextAttempt(s.(pages := ClosePage(s.pages, s.callers[c].pc.slot.page)), c)
    case Shutdown =>
      s.(pool := Drained(s.pool),
         pages := map p | p in s.pages ::
           if exists slot | slot in s.pool.idle :: slot.page == p then s.pages[p].(closed := true) else s.pages[p])
    case Tick(later) => s.(now := later)
  }

  /** A pool before its first caller: empty, or holding the one anonymous page prewarm opened. */
  ghost predicate Init(s: State)
  {
    && s.callers == map[] && s.pool.blocked == [] && s.pool.woken == {} && s.pool.capacity >= 1
    && ((s.pool.idle == [] && s.pool.live == 0 && s.pages == map[])
        || exists page ::
             && s.pool.idle == [Slot(page, s.now, ANONYMOUS)] && s.pool.live == 1
             && s.pages == map[page := Page([], "", false)])
  }

  // Credits

  predicate Owns(pc: Pc)
  {
    pc.Opening? || pc.OpenFailed? || pc.Holding? || pc.Signed? || pc.Spoiled?
  }

  function Credit(s: State, c: nat): int
  {
    if c in s.callers && Owns(s.callers[c].pc) then 1 else 0
  }

  function Owners(s: State): set<nat>
  {
    set c | c in s.callers && Owns(s.callers[c].pc)
  }

  /** Credits out of the shelf: pages being opened, held or signed on. */
  function Out(s: State): int
  {
    s.pool.live - |s.pool.idle|
  }

  ghost predicate Accounted(s: State)
  {
    && s.pool.live == |s.pool.idle| + |Owners(s)|
    && s.pool.live <= s.pool.capacity
  }

  // Waiting

  /** While anyone sleeps un-notified, every available credit has a wakeup on its way to it. */
  ghost predicate WakeupsCover(pool: Pool<nat>)
  {
    && NoRepeats(pool.blocked)
    && (forall c | c in pool.blocked :: c !in pool.woken)
    && (pool.blocked != [] ==> Available(pool) <= |pool.woken|)
  }

  ghost predicate NoLostWakeup(s: State)
  {
    && WakeupsCover(s.pool)
    && (forall c | c in s.pool.blocked :: c in s.callers && s.callers[c].pc.Parked?)
    && (forall c | c in s.pool.woken :: c in s.callers && s.callers[c].pc.Parked?)
  }

  // Pages

  function SlotOf(pc: Pc): Option<Warm>
  {
    match pc
    case Opening(worn) => worn
    case Holding(slot) => Some(slot)
    case Signed(slot, _) => Some(slot)
    case Spoiled(slot) => Some(slot)
    case Disposing(slot) => Some(slot)
    case _ => None
  }

  /** The page is open, and was opened for the identity its slot says. */
  ghost predicate Honest(s: State, slot: Warm)
  {
    && slot.page in s.pages && !s.pages[slot.page].closed
    && slot.binding == Key(s.cfg.digest, s.pages[slot.page].jar, s.pages[slot.page].proxy)
  }

  ghost predicate ShelfSound(s: State)
  {
    && (forall i | 0 <= i < |s.pool.idle| :: Honest(s, s.pool.idle[i]))
    && (forall i, j | 0 <= i < j < |s.pool.idle| :: s.pool.idle[i].page != s.pool.idle[j].page)
  }

  function HeldPage(s: State, c: nat): Option<nat>
  {
    if c in s.callers && SlotOf(s.callers[c].pc).Some? then Some(SlotOf(s.callers[c].pc).value.page) else None
  }

  ghost predicate HandsSound(s: State)
  {
    && (forall c | c in s.callers && SlotOf(s.callers[c].pc).Some? :: Honest(s, SlotOf(s.callers[c].pc).value))
    && (forall c, i | HeldPage(s, c).Some? && 0 <= i < |s.pool.idle| :: HeldPage(s, c).value != s.pool.idle[i].page)
    && (forall c, d | c != d && HeldPage(s, c).Some? && HeldPage(s, d).Some? :: HeldPage(s, c) != HeldPage(s, d))
  }

  /** A call's own record: its binding is its identity's key, and the page it signs on, or
      signed on, carries that binding. */
  ghost predicate CallerSound(s: State, c: nat)
    requires c in s.callers
  {
    var k := s.callers[c];
    && k.binding == Key(s.cfg.digest, k.jar, k.proxy)
    && 1 <= k.attempt <= 2
    && (k.pc.Holding? || k.pc.Signed? || k.pc.Spoiled? ==> k.pc.slot.binding == k.binding)
    && (k.pc.Signed? ==>
          && k.pc.slot.page in s.pages
          && k.pc.signed == Signature(s.cfg.hash, s.cfg.platform, s.pages[k.pc.slot.page].jar, k.plan))
    && (k.pc.Finished? && k.pc.result.Answered? ==> OwnPage(s, k, k.pc.result))
  }

  ghost predicate OwnPage(s: State, k: Caller, r: Result)
    requires r.Answered?
  {
    && r.page in s.pages
    && Key(s.cfg.digest, s.pages[r.page].jar, s.pages[r.page].proxy) == k.binding
    && r.signed == Signature(s.cfg.hash, s.cfg.platform, s.pages[r.page].jar, k.plan)
  }

  ghost predicate Inv(s: State)
  {
    && Accounted(s)
    && NoLostWakeup(s)
    && ShelfSound(s)
    && HandsSound(s)
    && forall c | c in s.callers :: CallerSound(s, c)
  }
}
