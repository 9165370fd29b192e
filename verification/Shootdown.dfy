/** The cross-CPU TLB shootdown of glue-ucore/mp.c and glue-ucore/trap.c, as a state machine over
    single accesses to shared memory.  CPU c has lapic id c. */
module Shootdown {

  /** Where the initiator is in mp_tlb_invalidate. */
  datatype Stage = Start | PutPgdir | PutLa | Raise(i: nat) | Local | Finish | Wait(i: nat)

  /** What a CPU is doing: outside the kernel lock, in the loop of kern_enter, holding the lock, or
      in mp_tlb_invalidate after changing the entry for (pgdir, la). */
  datatype Pc = Outside | Entering | Locked | Shooting(at: Stage, pgdir: nat, la: nat)

  /** Where a CPU is in the handler ipi, if it is in it. */
  datatype Handler = NoIpi | Check | LoadPgdir | LoadLa(pgdir: nat) | Inval(pgdir: nat, la: nat) | Spin | Clear

  /** A CPU with its page-table base and its TLB: address to version of the cached entry. */
  datatype Cpu = Cpu(pc: Pc, ipi: Handler, cr3: nat, tlb: map<nat, nat>)

  /** Page tables as versions: every write to an entry makes a new version. */
  type Versions = map<(nat, nat), nat>

  function Ver(v: Versions, pgdir: nat, la: nat): nat {
    if (pgdir, la) in v then v[(pgdir, la)] else 0
  }

  datatype State = State(cpu: seq<Cpu>, lock: bool, flag: seq<bool>, mptiPgdir: nat, mptiLa: nat, mptiEnd: bool,
      ver: Versions)

  datatype Move =
    | Fill(a: nat)                    // the hardware caches a translation
    | Evict(a: nat)                   // or drops one
    | LoadCr3(p: nat)                 // mp_set_mm_pagetable
    | TakeIpi                         // enter the handler, by interrupt or from the loop of kern_enter
    | IpiStep                         // one access in the handler
    | Enter                           // call kern_enter
    | TryLock                         // spinlock_acquire_try
    | Leave                           // kern_leave
    | WritePte(pgdir: nat, la: nat)   // change an entry, then call mp_tlb_invalidate
    | ShootStep                       // one access in mp_tlb_invalidate

  predicate Enabled(s: State, c: nat, m: Move) {
    && c < |s.cpu| == |s.flag|
    && var u := s.cpu[c];
       match m
       case Fill(_) => true
       case Evict(_) => true
       case LoadCr3(_) => u.ipi.NoIpi? && (u.pc.Outside? || u.pc.Locked?)
       case TakeIpi => u.ipi.NoIpi? && !u.pc.Shooting?
       case IpiStep => !u.ipi.NoIpi?
       case Enter => u.ipi.NoIpi? && u.pc.Outside?
       case TryLock => u.ipi.NoIpi? && u.pc.Entering?
       case Leave => u.ipi.NoIpi? && u.pc.Locked?
       case WritePte(_, _) => u.ipi.NoIpi? && u.pc.Locked?
       case ShootStep => u.pc.Shooting?
  }

  function Put(s: State, c: nat, u: Cpu): State
    requires c < |s.cpu|
  {
    s.(cpu := s.cpu[c := u])
  }

  /** tlb_invalidate: only if the page table is the one in use. */
  function Invalidate(u: Cpu, pgdir: nat, la: nat): (r: Cpu)
    ensures r.pc == u.pc && r.ipi == u.ipi && r.cr3 == u.cr3
  {
    if u.cr3 == pgdir then u.(tlb := u.tlb - {la}) else u
  }

  function StepIpi(s: State, c: nat): State
    requires c < |s.cpu| == |s.flag| && !s.cpu[c].ipi.NoIpi?
  {
    var u := s.cpu[c];
    match u.ipi
    case Check => Put(s, c, u.(ipi := if s.flag[c] then LoadPgdir else NoIpi))
    case LoadPgdir => Put(s, c, u.(ipi := LoadLa(s.mptiPgdir)))
    case LoadLa(p) => Put(s, c, u.(ipi := Inval(p, s.mptiLa)))
    case Inval(p, a) => Put(s, c, Invalidate(u, p, a).(ipi := Spin))
    case Spin => if s.mptiEnd then Put(s, c, u.(ipi := Clear)) else s
    case Clear => Put(s, c, u.(ipi := NoIpi)).(flag := s.flag[c := false])
  }

  function StepShoot(s: State, c: nat): State
    requires c < |s.cpu| == |s.flag| && s.cpu[c].pc.Shooting?
  {
    var u := s.cpu[c];
    match u.pc.at
    case Start => Put(s, c, u.(pc := u.pc.(at := PutPgdir))).(mptiEnd := false)
    case PutPgdir => Put(s, c, u.(pc := u.pc.(at := PutLa))).(mptiPgdir := u.pc.pgdir)
    case PutLa => Put(s, c, u.(pc := u.pc.(at := Raise(0)))).(mptiLa := u.pc.la)
    case Raise(i) =>
      if i >= |s.cpu| then Put(s, c, u.(pc := u.pc.(at := Local)))
      else Put(s, c, u.(pc := u.pc.(at := Raise(i + 1)))).(flag := if i == c then s.flag else s.flag[i := true])
    case Local => Put(s, c, Invalidate(u, u.pc.pgdir, u.pc.la).(pc := u.pc.(at := Finish)))
    case Finish => Put(s, c, u.(pc := u.pc.(at := Wait(0)))).(mptiEnd := true)
    case Wait(i) =>
      if i >= |s.cpu| then Put(s, c, u.(pc := Locked))
      else if i == c || !s.flag[i] then Put(s, c, u.(pc := u.pc.(at := Wait(i + 1))))
      else s
  }

  function Apply(s: State, c: nat, m: Move): State
    requires Enabled(s, c, m)
  {
    var u := s.cpu[c];
    match m
    case Fill(a) => Put(s, c, u.(tlb := u.tlb[a := Ver(s.ver, u.cr3, a)]))
    case Evict(a) => Put(s, c, u.(tlb := u.tlb - {a}))
    case LoadCr3(p) => Put(s, c, u.(cr3 := p, tlb := map[]))
    case TakeIpi => Put(s, c, u.(ipi := Check))
    case IpiStep => StepIpi(s, c)
    case Enter => Put(s, c, u.(pc := Entering))
    case TryLock => if s.lock then s else Put(s, c, u.(pc := Locked)).(lock := true)
    case Leave => Put(s, c, u.(pc := Outside)).(lock := false)
    case WritePte(p, a) => Put(s, c, u.(pc := Shooting(Start, p, a))).(ver := s.ver[(p, a) := Ver(s.ver, p, a) + 1])
    case ShootStep => StepShoot(s, c)
  }

  // The invariant.

  predicate Holds(u: Cpu) {
    u.pc.Locked? || u.pc.Shooting?
  }

  ghost predicate SomeHolder(cpu: seq<Cpu>) {
    exists c: nat :: c < |cpu| && Holds(cpu[c])
  }

  /** Mutual exclusion, and the lock is taken exactly while somebody holds it. */
  ghost predicate LockInv(cpu: seq<Cpu>, lock: bool) {
    && (forall c, d :: 0 <= c < |cpu| && 0 <= d < |cpu| && Holds(cpu[c]) && Holds(cpu[d]) ==> c == d)
    && (lock <==> SomeHolder(cpu))
  }

  /** CPU c has not had its flag raised yet in the round of the initiator at `at`. */
  predicate NotYet(at: Stage, c: nat) {
    at.Start? || at.PutPgdir? || at.PutLa? || (at.Raise? && at.i <= c)
  }

  /** The initiator has seen that the flag of c is clear again. */
  predicate Seen(at: Stage, c: nat) {
    at.Wait? && c < at.i
  }

  /** CPU b is the initiator of a round in which c has been asked and has not been seen to answer. */
  ghost predicate Asked(cpu: seq<Cpu>, b: nat, c: nat) {
    b < |cpu| && b != c && cpu[b].pc.Shooting? && !NotYet(cpu[b].pc.at, c) && !Seen(cpu[b].pc.at, c)
  }

  /** A raised flag belongs to the round in progress, and work in the handler to a raised flag. */
  ghost predicate FlagInv(cpu: seq<Cpu>, flag: seq<bool>) {
    && |flag| == |cpu|
    && (forall c: nat :: c < |cpu| && flag[c] ==> exists b: nat :: Asked(cpu, b, c))
    && (forall c :: 0 <= c < |cpu| && !cpu[c].ipi.NoIpi? && !cpu[c].ipi.Check? ==> flag[c])
    && (forall c :: 0 <= c < |cpu| && cpu[c].pc.Shooting? ==> cpu[c].ipi.NoIpi?)
  }

  /** The shared request is the initiator's from the moment it is written. */
  ghost predicate RequestInv(cpu: seq<Cpu>, pgdir: nat, la: nat, end: bool) {
    forall b :: 0 <= b < |cpu| && cpu[b].pc.Shooting? ==>
      var pc := cpu[b].pc;
      && (!pc.at.Start? && !pc.at.PutPgdir? ==> pgdir == pc.pgdir)
      && (!pc.at.Start? && !pc.at.PutPgdir? && !pc.at.PutLa? ==> la == pc.la)
      && (!pc.at.Start? ==> (end <==> pc.at.Wait?))
  }

  /** What a receiver has loaded is the request of the round that raised its flag. */
  ghost predicate LoadedInv(cpu: seq<Cpu>, pgdir: nat, la: nat) {
    forall c :: 0 <= c < |cpu| ==>
      && (cpu[c].ipi.LoadLa? ==> cpu[c].ipi.pgdir == pgdir)
      && (cpu[c].ipi.Inval? ==> cpu[c].ipi.pgdir == pgdir && cpu[c].ipi.la == la)
  }

  /** CPU c may still hold the translation that initiator b is getting rid of. */
  ghost predicate Behind(cpu: seq<Cpu>, flag: seq<bool>, b: nat, c: nat)
    requires b < |cpu| == |flag| && c < |cpu| && cpu[b].pc.Shooting?
  {
    if b == c then !cpu[b].pc.at.Finish? && !cpu[b].pc.at.Wait?
    else (NotYet(cpu[b].pc.at, c) || flag[c]) && !cpu[c].ipi.Spin? && !cpu[c].ipi.Clear?
  }

  /** A cached translation is current, or is being shot down and its CPU is still behind. */
  ghost predicate Fresh(cpu: seq<Cpu>, flag: seq<bool>, ver: Versions, c: nat, a: nat)
    requires c < |cpu| == |flag| && a in cpu[c].tlb
  {
    || cpu[c].tlb[a] == Ver(ver, cpu[c].cr3, a)
    || exists b: nat ::
         && b < |cpu| && cpu[b].pc.Shooting? && cpu[b].pc.pgdir == cpu[c].cr3 && cpu[b].pc.la == a
         && Behind(cpu, flag, b, c)
  }

  ghost predicate TlbInv(cpu: seq<Cpu>, flag: seq<bool>, ver: Versions)
    requires |cpu| == |flag|
  {
    forall c: nat, a: nat :: c < |cpu| && a in cpu[c].tlb ==> Fresh(cpu, flag, ver, c, a)
  }

  ghost predicate Inv(s: State) {
    && LockInv(s.cpu, s.lock) && FlagInv(s.cpu, s.flag) && RequestInv(s.cpu, s.mptiPgdir, s.mptiLa, s.mptiEnd)
    && LoadedInv(s.cpu, s.mptiPgdir, s.mptiLa) && TlbInv(s.cpu, s.flag, s.ver)
  }

  ghost predicate Init(s: State) {
    && |s.flag| == |s.cpu| && !s.lock && (forall c :: 0 <= c < |s.flag| ==> !s.flag[c])
    && (forall c :: 0 <= c < |s.cpu| ==> s.cpu[c].pc.Outside? && s.cpu[c].ipi.NoIpi? && s.cpu[c].tlb == map[])
  }

  // Every step keeps the invariant.

  /** The initiator's next place in mp_tlb_invalidate. */
  ghost function AfterShoot(pc: Pc, c: nat, n: nat, flag: seq<bool>): Pc
    requires pc.Shooting? && |flag| == n
  {
    match pc.at
    case Start => pc.(at := PutPgdir)
    case PutPgdir => pc.(at := PutLa)
    case PutLa => pc.(at := Raise(0))
    case Raise(i) => pc.(at := if i >= n then Local else Raise(i + 1))
    case Local => pc.(at := Finish)
    case Finish => pc.(at := Wait(0))
    case Wait(i) => if i >= n then Locked else if i == c || !flag[i] then pc.(at := Wait(i + 1)) else pc
  }

  lemma {:induction false} ShootEffect(s: State, c: nat)
    requires Enabled(s, c, ShootStep)
    ensures var t := StepShoot(s, c); var u := s.cpu[c]; var at := u.pc.at;
            && t.cpu == s.cpu[c := Cpu(AfterShoot(u.pc, c, |s.cpu|, s.flag), u.ipi, u.cr3,
                                       if at.Local? && u.cr3 == u.pc.pgdir then u.tlb - {u.pc.la} else u.tlb)]
            && t.flag == (if at.Raise? && at.i < |s.cpu| && at.i != c then s.flag[at.i := true] else s.flag)
            && t.lock == s.lock && t.ver == s.ver
            && t.mptiPgdir == (if at.PutPgdir? then u.pc.pgdir else s.mptiPgdir)
            && t.mptiLa == (if at.PutLa? then u.pc.la else s.mptiLa)
            && t.mptiEnd == (if at.Start? then false else if at.Finish? then true else s.mptiEnd)
  {
    assert s.cpu[c := s.cpu[c]] == s.cpu;
  }

  /** A receiver's next place in the handler. */
  ghost function AfterIpi(s: State, c: nat): Handler
    requires c < |s.cpu| == |s.flag|
  {
    match s.cpu[c].ipi
    case NoIpi => NoIpi
    case Check => if s.flag[c] then LoadPgdir else NoIpi
    case LoadPgdir => LoadLa(s.mptiPgdir)
    case LoadLa(p) => Inval(p, s.mptiLa)
    case Inval(_, _) => Spin
    case Spin => if s.mptiEnd then Clear else Spin
    case Clear => NoIpi
  }

  lemma {:induction false} IpiEffect(s: State, c: nat)
    requires Enabled(s, c, IpiStep)
    ensures var t := StepIpi(s, c); var u := s.cpu[c];
            && t.cpu == s.cpu[c := Cpu(u.pc, AfterIpi(s, c), u.cr3,
                                       if u.ipi.Inval? && u.cr3 == u.ipi.pgdir then u.tlb - {u.ipi.la} else u.tlb)]
            && t == s.(cpu := t.cpu, flag := if u.ipi.Clear? then s.flag[c := false] else s.flag)
  {
    assert s.cpu[c := s.cpu[c]] == s.cpu;
  }

  ghost predicate Plain(m: Move) {
    !m.IpiStep? && !m.ShootStep?
  }

  lemma {:induction false} PlainEffect(s: State, c: nat, m: Move)
    requires Enabled(s, c, m) && Plain(m)
    ensures var t := Apply(s, c, m); var u := s.cpu[c];
            && |t.cpu| == |s.cpu| && t.cpu == s.cpu[c := t.cpu[c]]
            && t == s.(cpu := t.cpu, lock := t.lock, ver := t.ver)
            && t.cpu[c].ipi == (if m.TakeIpi? then Check else u.ipi)
            && (t.cpu[c].pc == u.pc || (!u.pc.Shooting? && u.ipi.NoIpi?))
            && (t.cpu[c].pc == u.pc || !t.cpu[c].pc.Shooting?
                || (m.WritePte? && t.cpu[c].pc == Shooting(Start, m.pgdir, m.la)))
            && (m.WritePte? || t.ver == s.ver)
            && (|| ((Holds(t.cpu[c]) <==> Holds(u)) && t.lock == s.lock)
                || (!s.lock && t.lock && Holds(t.cpu[c]))
                || (Holds(u) && !Holds(t.cpu[c]) && !t.lock))
  {
    assert s.cpu[c := s.cpu[c]] == s.cpu;
  }

  lemma {:induction false} LockKeeps(s: State, c: nat, m: Move)
    requires Enabled(s, c, m) && LockInv(s.cpu, s.lock)
    ensures LockInv(Apply(s, c, m).cpu, Apply(s, c, m).lock)
  {
    hide Invalidate, StepIpi, StepShoot, LockInv;
    if m.ShootStep? {
      ShootEffect(s, c);
      LockChange(s.cpu, s.lock, Apply(s, c, m).cpu, Apply(s, c, m).lock, c);
    } else if m.IpiStep? {
      IpiEffect(s, c);
      LockChange(s.cpu, s.lock, Apply(s, c, m).cpu, Apply(s, c, m).lock, c);
    } else {
      LockPlain(s, c, m);
    }
  }

  lemma {:induction false} LockPlain(s: State, c: nat, m: Move)
    requires Enabled(s, c, m) && LockInv(s.cpu, s.lock) && Plain(m)
    ensures LockInv(Apply(s, c, m).cpu, Apply(s, c, m).lock)
  {
    hide Apply;
    PlainEffect(s, c, m);
    LockChange(s.cpu, s.lock, Apply(s, c, m).cpu, Apply(s, c, m).lock, c);
  }

  /** One CPU takes the lock, gives it back, or stays as it is in this respect. */
  lemma {:induction false} LockChange(cpu: seq<Cpu>, lock: bool, cpu': seq<Cpu>, lock': bool, c: nat)
    requires LockInv(cpu, lock) && c < |cpu| == |cpu'| && cpu' == cpu[c := cpu'[c]]
    requires || ((Holds(cpu'[c]) <==> Holds(cpu[c])) && lock' == lock)
             || (!lock && lock' && Holds(cpu'[c]))
             || (Holds(cpu[c]) && !Holds(cpu'[c]) && !lock')
    ensures LockInv(cpu', lock')
  {
    if SomeHolder(cpu) {
      var d: nat :| d < |cpu| && Holds(cpu[d]);
      assert Holds(cpu'[d]) || d == c;
    }
    if SomeHolder(cpu') {
      var d: nat :| d < |cpu'| && Holds(cpu'[d]);
      assert Holds(cpu[d]) || d == c;
    }
  }

  lemma {:induction false} RequestKeeps(s: State, c: nat, m: Move)
    requires Enabled(s, c, m) && LockInv(s.cpu, s.lock) && RequestInv(s.cpu, s.mptiPgdir, s.mptiLa, s.mptiEnd)
    ensures var t := Apply(s, c, m); RequestInv(t.cpu, t.mptiPgdir, t.mptiLa, t.mptiEnd)
  {
    hide Invalidate, StepIpi, StepShoot;
    if m.ShootStep? {
      ShootEffect(s, c);
      assert forall b :: 0 <= b < |s.cpu| && s.cpu[b].pc.Shooting? ==> Holds(s.cpu[b]) && b == c;
    } else if m.IpiStep? {
      IpiEffect(s, c);
    } else {
      RequestPlain(s, c, m);
    }
  }

  lemma {:induction false} RequestPlain(s: State, c: nat, m: Move)
    requires Enabled(s, c, m) && RequestInv(s.cpu, s.mptiPgdir, s.mptiLa, s.mptiEnd) && Plain(m)
    ensures var t := Apply(s, c, m); RequestInv(t.cpu, t.mptiPgdir, t.mptiLa, t.mptiEnd)
  {
    hide Apply;
    PlainEffect(s, c, m);
  }

  lemma {:induction false} FlagKeeps(s: State, c: nat, m: Move)
    requires Enabled(s, c, m) && LockInv(s.cpu, s.lock) && FlagInv(s.cpu, s.flag)
    ensures FlagInv(Apply(s, c, m).cpu, Apply(s, c, m).flag)
  {
    hide Invalidate, StepIpi, StepShoot;
    if m.ShootStep? {
      FlagShoot(s, c);
    } else if m.IpiStep? {
      FlagIpi(s, c);
    } else {
      FlagPlain(s, c, m);
    }
  }

  lemma {:induction false} FlagShoot(s: State, c: nat)
    requires Enabled(s, c, ShootStep) && LockInv(s.cpu, s.lock) && FlagInv(s.cpu, s.flag)
    ensures FlagInv(StepShoot(s, c).cpu, StepShoot(s, c).flag)
  {
    hide StepShoot, LockInv;
    ShootEffect(s, c);
    var t := StepShoot(s, c);
    forall d: nat | d < |t.cpu| && t.flag[d] ensures exists b: nat :: Asked(t.cpu, b, d) {
      if s.flag[d] {
        var b: nat :| Asked(s.cpu, b, d);
        OneInitiator(s, b, c);
      }
      assert Asked(t.cpu, c, d);
    }
  }

  lemma {:induction false} FlagIpi(s: State, c: nat)
    requires Enabled(s, c, IpiStep) && FlagInv(s.cpu, s.flag)
    ensures FlagInv(StepIpi(s, c).cpu, StepIpi(s, c).flag)
  {
    hide StepIpi;
    IpiEffect(s, c);
    var t := StepIpi(s, c);
    forall d: nat | d < |t.cpu| && t.flag[d] ensures exists b: nat :: Asked(t.cpu, b, d) {
      var b: nat :| Asked(s.cpu, b, d);
      assert Asked(t.cpu, b, d);
    }
  }

  lemma {:induction false} FlagPlain(s: State, c: nat, m: Move)
    requires Enabled(s, c, m) && Plain(m) && FlagInv(s.cpu, s.flag)
    ensures FlagInv(Apply(s, c, m).cpu, Apply(s, c, m).flag)
  {
    hide Apply;
    PlainEffect(s, c, m);
    var t := Apply(s, c, m);
    forall d: nat | d < |t.cpu| && t.flag[d] ensures exists b: nat :: Asked(t.cpu, b, d) {
      var b: nat :| Asked(s.cpu, b, d);
      assert Asked(t.cpu, b, d);
    }
  }

  /** While a flag is up, its round's request is complete. */
  lemma {:induction false} Requested(s: State, c: nat) returns (b: nat)
    requires c < |s.cpu| == |s.flag| && s.flag[c] && FlagInv(s.cpu, s.flag)
             && RequestInv(s.cpu, s.mptiPgdir, s.mptiLa, s.mptiEnd)
    ensures Asked(s.cpu, b, c) && s.mptiPgdir == s.cpu[b].pc.pgdir && s.mptiLa == s.cpu[b].pc.la
  {
    b :| Asked(s.cpu, b, c);
  }

  /** At most one CPU is the initiator. */
  lemma {:induction false} OneInitiator(s: State, b: nat, c: nat)
    requires LockInv(s.cpu, s.lock) && b < |s.cpu| && c < |s.cpu| && Holds(s.cpu[b]) && Holds(s.cpu[c])
    ensures b == c
  {
  }

  lemma {:induction false} LoadedKeeps(s: State, c: nat, m: Move)
    requires Enabled(s, c, m) && LockInv(s.cpu, s.lock) && FlagInv(s.cpu, s.flag)
             && LoadedInv(s.cpu, s.mptiPgdir, s.mptiLa)
    ensures var t := Apply(s, c, m); LoadedInv(t.cpu, t.mptiPgdir, t.mptiLa)
  {
    hide Invalidate, FlagInv, LockInv, StepShoot, StepIpi;
    if m.ShootStep? {
      ShootEffect(s, c);
      if s.cpu[c].pc.at.PutPgdir? || s.cpu[c].pc.at.PutLa? {
        forall d: nat | d < |s.cpu| ensures s.cpu[d].ipi.NoIpi? || s.cpu[d].ipi.Check? {
          NobodyLoading(s, c, d);
        }
      }
    } else if m.IpiStep? {
      IpiEffect(s, c);
    } else {
      LoadedPlain(s, c, m);
    }
  }

  lemma {:induction false} LoadedPlain(s: State, c: nat, m: Move)
    requires Enabled(s, c, m) && Plain(m) && LoadedInv(s.cpu, s.mptiPgdir, s.mptiLa)
    ensures var t := Apply(s, c, m); LoadedInv(t.cpu, t.mptiPgdir, t.mptiLa)
  {
    hide Apply;
    PlainEffect(s, c, m);
  }

  /** Before any flag is raised nobody is at work in the handler. */
  lemma {:induction false} NobodyLoading(s: State, c: nat, d: nat)
    requires LockInv(s.cpu, s.lock) && FlagInv(s.cpu, s.flag) && c < |s.cpu| && d < |s.cpu|
    requires s.cpu[c].pc.Locked? || (s.cpu[c].pc.Shooting? && NotYet(s.cpu[c].pc.at, d))
    ensures !s.flag[d] && (s.cpu[d].ipi.NoIpi? || s.cpu[d].ipi.Check?)
  {
    if s.flag[d] {
      var b: nat :| Asked(s.cpu, b, d);
      OneInitiator(s, b, c);
      assert false;
    }
  }

  lemma {:induction false} TlbKeeps(s: State, c: nat, m: Move)
    requires Enabled(s, c, m) && Inv(s)
    ensures var t := Apply(s, c, m); |t.cpu| == |t.flag| && TlbInv(t.cpu, t.flag, t.ver)
  {
    hide Invalidate, Fresh, LockInv, FlagInv, RequestInv, LoadedInv, StepShoot, StepIpi;
    SameSize(s, c, m);
    var t := Apply(s, c, m);
    forall d: nat, a: nat | d < |t.cpu| && a in t.cpu[d].tlb ensures Fresh(t.cpu, t.flag, t.ver, d, a) {
      if m.WritePte? {
        FreshWrite(s, c, m, d, a);
      } else if m.ShootStep? {
        FreshShoot(s, c, d, a);
      } else if m.IpiStep? {
        FreshIpi(s, c, d, a);
      } else {
        FreshOther(s, c, m, d, a);
      }
    }
  }

  lemma {:induction false} SameSize(s: State, c: nat, m: Move)
    requires Enabled(s, c, m)
    ensures |Apply(s, c, m).cpu| == |Apply(s, c, m).flag| == |s.cpu|
  {
    hide StepShoot, StepIpi;
    if m.ShootStep? {
      ShootEffect(s, c);
    } else if m.IpiStep? {
      IpiEffect(s, c);
    } else {
      PlainEffect(s, c, m);
    }
  }

  lemma {:induction false} FreshOther(s: State, c: nat, m: Move, d: nat, a: nat)
    requires Enabled(s, c, m) && Inv(s) && !m.WritePte? && !m.ShootStep? && !m.IpiStep?
    requires d < |Apply(s, c, m).cpu| == |Apply(s, c, m).flag| && a in Apply(s, c, m).cpu[d].tlb
    ensures var t := Apply(s, c, m); Fresh(t.cpu, t.flag, t.ver, d, a)
  {
    hide LockInv, FlagInv, RequestInv, LoadedInv;
    var t := Apply(s, c, m);
    if d == c && m.Fill? && m.a == a {
    } else {
      assert Fresh(s.cpu, s.flag, s.ver, d, a);
      if s.cpu[d].tlb[a] != Ver(s.ver, s.cpu[d].cr3, a) {
        var b: nat :| b < |s.cpu| && s.cpu[b].pc.Shooting? && s.cpu[b].pc.pgdir == s.cpu[d].cr3
          && s.cpu[b].pc.la == a && Behind(s.cpu, s.flag, b, d);
        assert Behind(t.cpu, t.flag, b, d);
      }
    }
  }

  lemma {:induction false} FreshWrite(s: State, c: nat, m: Move, d: nat, a: nat)
    requires Enabled(s, c, m) && Inv(s) && m.WritePte?
    requires d < |Apply(s, c, m).cpu| == |Apply(s, c, m).flag| && a in Apply(s, c, m).cpu[d].tlb
    ensures var t := Apply(s, c, m); Fresh(t.cpu, t.flag, t.ver, d, a)
  {
    hide LockInv, FlagInv, RequestInv, LoadedInv;
    var t := Apply(s, c, m);
    assert Fresh(s.cpu, s.flag, s.ver, d, a);
    assert forall b: nat :: b < |s.cpu| && Holds(s.cpu[b]) ==> b == c by {
      forall b: nat | b < |s.cpu| && Holds(s.cpu[b]) ensures b == c {
        OneInitiator(s, b, c);
      }
    }
    assert s.cpu[d].tlb[a] == Ver(s.ver, s.cpu[d].cr3, a);
    NobodyLoading(s, c, d);
    assert Behind(t.cpu, t.flag, c, d);
  }

  lemma {:induction false} FreshIpi(s: State, c: nat, d: nat, a: nat)
    requires Enabled(s, c, IpiStep) && Inv(s)
    requires d < |StepIpi(s, c).cpu| == |StepIpi(s, c).flag| && a in StepIpi(s, c).cpu[d].tlb
    ensures var t := StepIpi(s, c); Fresh(t.cpu, t.flag, t.ver, d, a)
  {
    hide LockInv, RequestInv, LoadedInv, StepIpi;
    IpiEffect(s, c);
    var t := StepIpi(s, c);
    assert Fresh(s.cpu, s.flag, s.ver, d, a);
    if s.cpu[d].tlb[a] != Ver(s.ver, s.cpu[d].cr3, a) {
      var b: nat :| b < |s.cpu| && s.cpu[b].pc.Shooting? && s.cpu[b].pc.pgdir == s.cpu[d].cr3 && s.cpu[b].pc.la == a
        && Behind(s.cpu, s.flag, b, d);
      if d == c && s.cpu[c].ipi.Inval? {
        Removed(s, c, b);
        assert false;
      }
      assert Behind(t.cpu, t.flag, b, d);
    }
  }

  /** A receiver invalidates what the initiator asked for. */
  lemma {:induction false} Removed(s: State, c: nat, b: nat)
    requires Inv(s) && c < |s.cpu| && s.cpu[c].ipi.Inval? && b < |s.cpu| && s.cpu[b].pc.Shooting?
    ensures s.cpu[c].ipi.pgdir == s.cpu[b].pc.pgdir && s.cpu[c].ipi.la == s.cpu[b].pc.la
  {
    hide TlbInv, LockInv;
    assert s.flag[c];
    var b' := Requested(s, c);
    OneInitiator(s, b, b');
  }

  lemma {:induction false} FreshShoot(s: State, c: nat, d: nat, a: nat)
    requires Enabled(s, c, ShootStep) && Inv(s)
    requires d < |StepShoot(s, c).cpu| == |StepShoot(s, c).flag| && a in StepShoot(s, c).cpu[d].tlb
    ensures var t := StepShoot(s, c); Fresh(t.cpu, t.flag, t.ver, d, a)
  {
    hide LockInv, RequestInv, LoadedInv, FlagInv, StepShoot;
    ShootEffect(s, c);
    var t := StepShoot(s, c);
    assert Fresh(s.cpu, s.flag, s.ver, d, a);
    if s.cpu[d].tlb[a] != Ver(s.ver, s.cpu[d].cr3, a) {
      var b: nat :| b < |s.cpu| && s.cpu[b].pc.Shooting? && s.cpu[b].pc.pgdir == s.cpu[d].cr3 && s.cpu[b].pc.la == a
        && Behind(s.cpu, s.flag, b, d);
      OneInitiator(s, b, c);
      if s.cpu[c].pc.at.Wait? && s.cpu[c].pc.at.i >= |s.cpu| {
        Answered(s, c, d);
        assert false;
      }
      assert Behind(t.cpu, t.flag, b, d);
    }
  }

  /** When the initiator has seen every flag clear, nobody is behind. */
  lemma {:induction false} Answered(s: State, c: nat, d: nat)
    requires Inv(s) && c < |s.cpu| && d < |s.cpu| == |s.flag| && s.cpu[c].pc.Shooting? && s.cpu[c].pc.at.Wait?
             && s.cpu[c].pc.at.i >= |s.cpu|
    ensures !Behind(s.cpu, s.flag, c, d)
  {
    hide LockInv, TlbInv;
    if s.flag[d] {
      var b: nat :| Asked(s.cpu, b, d);
      OneInitiator(s, b, c);
      assert false;
    }
  }

  lemma {:induction false} StepKeeps(s: State, c: nat, m: Move)
    requires Inv(s) && Enabled(s, c, m)
    ensures Inv(Apply(s, c, m))
  {
    hide LockInv, FlagInv, RequestInv, LoadedInv, TlbInv, Apply, Enabled;
    LockKeeps(s, c, m);
    FlagKeeps(s, c, m);
    RequestKeeps(s, c, m);
    LoadedKeeps(s, c, m);
    TlbKeeps(s, c, m);
  }

  // Whole runs.

  ghost predicate IsRun(run: seq<State>, moves: seq<(nat, Move)>) {
    && |run| == |moves| + 1 && Init(run[0])
    && forall i :: 0 <= i < |moves| ==>
      Enabled(run[i], moves[i].0, moves[i].1) && run[i + 1] == Apply(run[i], moves[i].0, moves[i].1)
  }

  lemma {:induction false} RunInv(run: seq<State>, moves: seq<(nat, Move)>, i: nat)
    requires IsRun(run, moves) && i < |run|
    ensures Inv(run[i])
  {
    hide Inv, Apply, Enabled, Init;
    if i == 0 {
      InitInv(run[0]);
    } else {
      RunInv(run, moves, i - 1);
      StepKeeps(run[i - 1], moves[i - 1].0, moves[i - 1].1);
    }
  }

  lemma {:induction false} InitInv(s: State)
    requires Init(s)
    ensures Inv(s)
  {
  }

  /** Over every interleaving: whenever mp_tlb_invalidate returns on some CPU, no TLB holds an
      outdated translation for the page it was called for. */
  lemma {:induction false} ReturnsClean(run: seq<State>, moves: seq<(nat, Move)>, i: nat, d: nat)
    requires IsRun(run, moves) && i < |moves|
    requires var c := moves[i].0;
             c < |run[i].cpu| == |run[i + 1].cpu| && run[i].cpu[c].pc.Shooting? && run[i + 1].cpu[c].pc.Locked?
    requires d < |run[i + 1].cpu|
    ensures var pc := run[i].cpu[moves[i].0].pc; var u := run[i + 1].cpu[d];
            u.cr3 == pc.pgdir && pc.la in u.tlb ==> u.tlb[pc.la] == Ver(run[i + 1].ver, pc.pgdir, pc.la)
  {
    hide Inv, Apply, Enabled, Init;
    RunInv(run, moves, i + 1);
    NobodyShooting(run[i + 1], moves[i].0);
    Coherent(run[i + 1], d, run[i].cpu[moves[i].0].pc.la);
  }

  lemma {:induction false} NobodyShooting(s: State, c: nat)
    requires Inv(s) && c < |s.cpu| && s.cpu[c].pc.Locked?
    ensures forall b :: 0 <= b < |s.cpu| ==> !s.cpu[b].pc.Shooting?
  {
    hide FlagInv, RequestInv, LoadedInv, TlbInv;
    forall b | 0 <= b < |s.cpu| && s.cpu[b].pc.Shooting? ensures false {
      OneInitiator(s, b, c);
    }
  }

  /** With no shootdown in progress every TLB agrees with the page tables. */
  lemma {:induction false} Coherent(s: State, c: nat, a: nat)
    requires Inv(s) && c < |s.cpu| && forall b :: 0 <= b < |s.cpu| ==> !s.cpu[b].pc.Shooting?
    ensures a in s.cpu[c].tlb ==> s.cpu[c].tlb[a] == Ver(s.ver, s.cpu[c].cr3, a)
  {
    hide LockInv, RequestInv, LoadedInv;
    if a in s.cpu[c].tlb {
      assert Fresh(s.cpu, s.flag, s.ver, c, a);
    }
  }

  /** Every receiver acts on the request of the round that raised its flag. */
  lemma {:induction false} ReadsOwnRound(run: seq<State>, moves: seq<(nat, Move)>, i: nat, c: nat) returns (b: nat)
    requires IsRun(run, moves) && i < |run| && c < |run[i].cpu| && run[i].cpu[c].ipi.Inval?
    ensures b < |run[i].cpu| && Asked(run[i].cpu, b, c)
    ensures run[i].cpu[c].ipi == Inval(run[i].cpu[b].pc.pgdir, run[i].cpu[b].pc.la)
  {
    hide IsRun, LockInv, TlbInv;
    RunInv(run, moves, i);
    b := Requested(run[i], c);
  }

  // A shootdown in progress can always be finished.

  /** Steps CPU c still has to make in the handler once its flag is up. */
  ghost function IpiLeft(flag: bool, h: Handler): nat {
    if !flag then 0
    else match h
         case NoIpi => 7
         case Check => 6
         case LoadPgdir => 5
         case LoadLa(_) => 4
         case Inval(_, _) => 3
         case Spin => 2
         case Clear => 1
  }

  ghost function Rest(n: nat, i: nat): nat {
    if i < n then n - i else 0
  }

  ghost function ShootLeft(at: Stage, n: nat): nat {
    match at
    case Start => 9 * n + 7
    case PutPgdir => 9 * n + 6
    case PutLa => 9 * n + 5
    case Raise(i) => 8 * Rest(n, i) + n + 4
    case Local => n + 3
    case Finish => n + 2
    case Wait(i) => Rest(n, i) + 1
  }

  ghost function HandlersLeft(cpu: seq<Cpu>, flag: seq<bool>, k: nat): nat
    requires k <= |cpu| == |flag|
  {
    if k == 0 then 0 else HandlersLeft(cpu, flag, k - 1) + IpiLeft(flag[k - 1], cpu[k - 1].ipi)
  }

  /** An upper bound on the protocol steps left before the initiator b returns. */
  ghost function Measure(s: State, b: nat): nat
    requires b < |s.cpu| == |s.flag| && s.cpu[b].pc.Shooting?
  {
    ShootLeft(s.cpu[b].pc.at, |s.cpu|) + HandlersLeft(s.cpu, s.flag, |s.cpu|)
  }

  lemma {:induction false} OneChanged(cpu: seq<Cpu>, flag: seq<bool>, cpu': seq<Cpu>, flag': seq<bool>, c: nat, k: nat)
    requires k <= |cpu| == |flag| == |cpu'| == |flag'| && c < |cpu|
    requires forall d :: 0 <= d < |cpu| && d != c ==> cpu'[d].ipi == cpu[d].ipi && flag'[d] == flag[d]
    ensures HandlersLeft(cpu', flag', k) - HandlersLeft(cpu, flag, k)
         == if c < k then IpiLeft(flag'[c], cpu'[c].ipi) - IpiLeft(flag[c], cpu[c].ipi) else 0
  {
    hide IpiLeft;
    if k > 0 {
      OneChanged(cpu, flag, cpu', flag', c, k - 1);
    }
  }

  /** No move of any CPU makes a shootdown in progress longer, until it has returned. */
  lemma {:induction false} NeverLonger(s: State, b: nat, c: nat, m: Move)
    requires Inv(s) && Enabled(s, c, m) && b < |s.cpu| == |s.flag| && s.cpu[b].pc.Shooting?
    ensures var t := Apply(s, c, m);
            b < |t.cpu| == |t.flag| && (t.cpu[b].pc.Shooting? ==> Measure(t, b) <= Measure(s, b))
            && (t.cpu[b].pc.Shooting? || (c == b && t.cpu[b].pc.Locked?))
  {
    hide Inv, StepShoot, StepIpi, HandlersLeft, AfterIpi;
    var t := Apply(s, c, m);
    if m.ShootStep? {
      Unique(s, b, c);
      ShootShorter(s, b);
    } else if m.IpiStep? {
      IpiEffect(s, c);
      OneChanged(s.cpu, s.flag, t.cpu, t.flag, c, |s.cpu|);
      IpiShorter(s, c);
    } else {
      PlainEffect(s, c, m);
      OneChanged(s.cpu, s.flag, t.cpu, t.flag, c, |s.cpu|);
    }
  }

  lemma {:induction false} Unique(s: State, b: nat, c: nat)
    requires Inv(s) && b < |s.cpu| && c < |s.cpu| && s.cpu[b].pc.Shooting? && s.cpu[c].pc.Shooting?
    ensures b == c
  {
    hide FlagInv, RequestInv, LoadedInv, TlbInv;
  }

  lemma {:induction false} IpiShorter(s: State, c: nat)
    requires Enabled(s, c, IpiStep)
    ensures var u := s.cpu[c]; var f := if u.ipi.Clear? then false else s.flag[c];
            && IpiLeft(f, AfterIpi(s, c)) <= IpiLeft(s.flag[c], u.ipi)
            && (s.flag[c] && s.mptiEnd ==> IpiLeft(f, AfterIpi(s, c)) < IpiLeft(s.flag[c], u.ipi))
  {
  }

  /** The initiator waits only for a flag that is still up. */
  ghost predicate Blocked(s: State, b: nat)
    requires b < |s.cpu| == |s.flag| && s.cpu[b].pc.Shooting?
  {
    var at := s.cpu[b].pc.at;
    at.Wait? && at.i < |s.cpu| && at.i != b && s.flag[at.i]
  }

  lemma {:induction false} ShootShorter(s: State, b: nat)
    requires b < |s.cpu| == |s.flag| && s.cpu[b].pc.Shooting?
    ensures var t := StepShoot(s, b);
            && b < |t.cpu| == |t.flag| && (t.cpu[b].pc.Shooting? || t.cpu[b].pc.Locked?)
            && (t.cpu[b].pc.Shooting? ==> Measure(t, b) <= Measure(s, b))
            && (t.cpu[b].pc.Shooting? && !Blocked(s, b) ==> Measure(t, b) < Measure(s, b))
  {
    hide StepShoot, HandlersLeft;
    ShootEffect(s, b);
    var t := StepShoot(s, b);
    var at := s.cpu[b].pc.at;
    var c := if at.Raise? && at.i < |s.cpu| then at.i else b;
    OneChanged(s.cpu, s.flag, t.cpu, t.flag, c, |s.cpu|);
  }

  /** In every state of a shootdown some CPU can make a protocol step that shortens it. */
  lemma {:induction false} Helpful(s: State, b: nat) returns (c: nat, m: Move)
    requires Inv(s) && b < |s.cpu| == |s.flag| && s.cpu[b].pc.Shooting?
    ensures Enabled(s, c, m) && (m.TakeIpi? || m.IpiStep? || m.ShootStep?)
    ensures var t := Apply(s, c, m);
            b < |t.cpu| == |t.flag| && (t.cpu[b].pc.Locked? || (t.cpu[b].pc.Shooting? && Measure(t, b) < Measure(s, b)))
  {
    hide StepShoot, StepIpi, HandlersLeft, TlbInv, LoadedInv, AfterIpi;
    if !Blocked(s, b) {
      ShootShorter(s, b);
      return b, ShootStep;
    }
    c := s.cpu[b].pc.at.i;
    if s.cpu[c].ipi.NoIpi? {
      m := TakeIpi;
      if s.cpu[c].pc.Shooting? {
        Unique(s, b, c);
        assert false;
      }
      PlainEffect(s, c, m);
    } else {
      m := IpiStep;
      IpiEffect(s, c);
      IpiShorter(s, c);
    }
    var t := Apply(s, c, m);
    OneChanged(s.cpu, s.flag, t.cpu, t.flag, c, |s.cpu|);
  }

  // The lock can always be had.

  ghost predicate Reaches(s: State, moves: seq<(nat, Move)>, t: State)
    decreases |moves|
  {
    if moves == [] then t == s
    else Enabled(s, moves[0].0, moves[0].1) && Reaches(Apply(s, moves[0].0, moves[0].1), moves[1..], t)
  }

  lemma {:induction false} ReachesOn(s: State, moves: seq<(nat, Move)>, t: State, more: seq<(nat, Move)>, u: State)
    requires Reaches(s, moves, t) && Reaches(t, more, u)
    ensures Reaches(s, moves + more, u)
    decreases |moves|
  {
    hide Enabled, Apply;
    if moves == [] {
      assert moves + more == more;
    } else {
      ReachesOn(Apply(s, moves[0].0, moves[0].1), moves[1..], t, more, u);
      assert (moves + more)[1..] == moves[1..] + more;
    }
  }

  lemma {:induction false} OneMove(s: State, c: nat, m: Move)
    requires Inv(s) && Enabled(s, c, m)
    ensures Reaches(s, [(c, m)], Apply(s, c, m)) && Inv(Apply(s, c, m))
    ensures |Apply(s, c, m).cpu| == |Apply(s, c, m).flag| == |s.cpu|
  {
    hide Inv, Enabled, Apply;
    StepKeeps(s, c, m);
    SameSize(s, c, m);
  }

  /** No CPU but b has left its place. */
  ghost predicate OthersStay(s: State, t: State, b: nat) {
    |t.cpu| == |s.cpu| && forall d :: 0 <= d < |s.cpu| && d != b ==> t.cpu[d].pc == s.cpu[d].pc
  }

  lemma {:induction false} OnlyMover(s: State, c: nat, m: Move, b: nat)
    requires Enabled(s, c, m) && (m.TakeIpi? || m.IpiStep? || c == b)
    ensures OthersStay(s, Apply(s, c, m), b)
    ensures (m.TakeIpi? || m.IpiStep?) && b < |s.cpu| ==> Apply(s, c, m).cpu[b].pc == s.cpu[b].pc
  {
    hide StepShoot, StepIpi;
    if m.ShootStep? {
      ShootEffect(s, c);
    } else if m.IpiStep? {
      IpiEffect(s, c);
    } else {
      PlainEffect(s, c, m);
    }
  }

  /** A shootdown can be finished from wherever it is. */
  lemma {:induction false} Finishes(s: State, b: nat) returns (moves: seq<(nat, Move)>, t: State)
    requires Inv(s) && b < |s.cpu| == |s.flag| && s.cpu[b].pc.Shooting?
    ensures Reaches(s, moves, t) && Inv(t) && OthersStay(s, t, b) && t.cpu[b].pc.Locked?
    decreases Measure(s, b)
  {
    hide Inv, Apply, Enabled, Reaches, Measure;
    var c, m := Helpful(s, b);
    OneMove(s, c, m);
    t := Apply(s, c, m);
    moves := [(c, m)];
    if m.ShootStep? {
      Shooter(s, c);
      Unique(s, b, c);
    }
    OnlyMover(s, c, m, b);
    if !t.cpu[b].pc.Locked? {
      var more, u := Finishes(t, b);
      ReachesOn(s, moves, t, more, u);
      moves, t := moves + more, u;
    }
  }

  lemma {:induction false} Shooter(s: State, c: nat)
    requires Enabled(s, c, ShootStep)
    ensures c < |s.cpu| && s.cpu[c].pc.Shooting?
  {
  }

  /** Outside a shootdown a CPU is out of the handler, or can be with one step. */
  lemma {:induction false} HandlerDone(s: State, c: nat) returns (moves: seq<(nat, Move)>, t: State)
    requires Inv(s) && c < |s.cpu| && forall b :: 0 <= b < |s.cpu| ==> !s.cpu[b].pc.Shooting?
    ensures Reaches(s, moves, t) && Inv(t) && |t.cpu| == |t.flag| == |s.cpu| && t.lock == s.lock
    ensures t.cpu[c].ipi.NoIpi? && forall d :: 0 <= d < |s.cpu| ==> t.cpu[d].pc == s.cpu[d].pc
  {
    hide LockInv, RequestInv, LoadedInv, TlbInv;
    moves, t := [], s;
    assert !s.flag[c];
    if !s.cpu[c].ipi.NoIpi? {
      moves, t := [(c, IpiStep)], Apply(s, c, IpiStep);
      OneMove(s, c, IpiStep);
      IpiEffect(s, c);
    }
  }

  /** Whoever holds the lock can give it back. */
  lemma {:induction false} Releases(s: State, b: nat) returns (moves: seq<(nat, Move)>, t: State)
    requires Inv(s) && b < |s.cpu| && s.cpu[b].pc.Locked?
    ensures Reaches(s, moves, t) && Inv(t) && OthersStay(s, t, b) && !t.lock
  {
    hide Inv, Reaches;
    NobodyShooting(s, b);
    moves, t := HandlerDone(s, b);
    var u := Apply(t, b, Leave);
    OneMove(t, b, Leave);
    OnlyMover(t, b, Leave, b);
    ReachesOn(s, moves, t, [(b, Leave)], u);
    moves, t := moves + [(b, Leave)], u;
  }

  /** From every state the lock can become free while every CPU but its holder stays where it is. */
  lemma {:induction false} Unlocks(s: State) returns (moves: seq<(nat, Move)>, t: State)
    requires Inv(s)
    ensures Reaches(s, moves, t) && Inv(t) && !t.lock && |t.cpu| == |s.cpu|
    ensures forall d :: 0 <= d < |s.cpu| && !Holds(s.cpu[d]) ==> t.cpu[d].pc == s.cpu[d].pc
  {
    hide FlagInv, RequestInv, LoadedInv, TlbInv, Apply, Enabled;
    moves, t := [], s;
    if s.lock {
      assert SomeHolder(s.cpu);
      var b: nat :| b < |s.cpu| && Holds(s.cpu[b]);
      if s.cpu[b].pc.Shooting? {
        SameFlags(s);
        moves, t := Finishes(s, b);
      }
      var more, u := Releases(t, b);
      ReachesOn(s, moves, t, more, u);
      moves, t := moves + more, u;
    }
  }

  lemma {:induction false} SameFlags(s: State)
    requires Inv(s)
    ensures |s.flag| == |s.cpu|
  {
  }

  /** The lock is had by trying exactly if nobody holds it. */
  lemma {:induction false} TryLockIs(s: State, c: nat)
    requires Inv(s) && Enabled(s, c, TryLock)
    ensures var t := Apply(s, c, TryLock);
            if SomeHolder(s.cpu) then t == s else t.lock && t.cpu == s.cpu[c := s.cpu[c].(pc := Locked)]
  {
    hide FlagInv, RequestInv, LoadedInv, TlbInv;
  }

  lemma {:induction false} NobodyThere(s: State)
    requires Inv(s) && !s.lock
    ensures forall b :: 0 <= b < |s.cpu| ==> !Holds(s.cpu[b])
  {
    hide FlagInv, RequestInv, LoadedInv, TlbInv;
  }

  /** No deadlock: from every state of every interleaving any CPU outside the kernel can get in. */
  lemma {:induction false} GetsLock(s: State, c: nat) returns (moves: seq<(nat, Move)>, t: State)
    requires Inv(s) && c < |s.cpu| && !Holds(s.cpu[c])
    ensures Reaches(s, moves, t) && Inv(t) && c < |t.cpu| && t.cpu[c].pc.Locked? && t.lock
  {
    hide Inv, Reaches, SomeHolder;
    var m1, s1 := Unlocks(s);
    NobodyThere(s1);
    var m2, s2 := HandlerDone(s1, c);
    ReachesOn(s, m1, s1, m2, s2);
    NobodyThere(s2);
    moves, t := m1 + m2, s2;
    if t.cpu[c].pc.Outside? {
      var u := Apply(t, c, Enter);
      OneMove(t, c, Enter);
      ReachesOn(s, moves, t, [(c, Enter)], u);
      moves, t := moves + [(c, Enter)], u;
    }
    NobodyThere(t);
    NoHolder(t);
    var u := Apply(t, c, TryLock);
    OneMove(t, c, TryLock);
    TryLockIs(t, c);
    ReachesOn(s, moves, t, [(c, TryLock)], u);
    moves, t := moves + [(c, TryLock)], u;
  }

  lemma {:induction false} NoHolder(s: State)
    requires forall b :: 0 <= b < |s.cpu| ==> !Holds(s.cpu[b])
    ensures !SomeHolder(s.cpu)
  {
  }

  /** Why it is needed: between the change of an entry and the shootdown another CPU does use an
      outdated translation. */
  lemma {:induction false} OutdatedMeanwhile() returns (run: seq<State>, moves: seq<(nat, Move)>)
    ensures IsRun(run, moves) && |run| == 6
    ensures var s := run[5];
            |s.cpu| == 2 && 5 in s.cpu[0].tlb && s.cpu[0].cr3 == 7 && s.cpu[0].tlb[5] != Ver(s.ver, 7, 5)
  {
    var u := Cpu(Outside, NoIpi, 0, map[]);
    var s0 := State([u, u], false, [false, false], 0, 0, false, map[]);
    var s1 := Apply(s0, 0, LoadCr3(7));
    var s2 := Apply(s1, 0, Fill(5));
    var s3 := Apply(s2, 1, Enter);
    var s4 := Apply(s3, 1, TryLock);
    var s5 := Apply(s4, 1, WritePte(7, 5));
    run := [s0, s1, s2, s3, s4, s5];
    moves := [(0, LoadCr3(7)), (0, Fill(5)), (1, Enter), (1, TryLock), (1, WritePte(7, 5))];
  }
}
