/** Up to five packets interleaved on the bus in any way all arrive, each once and unchanged. */
module CanInterleaving {
  import opened Wrappers
  import Words
  import opened Bytes
  import opened Cfp
  import opened Can
  import opened CanReassembly

  /** A packet being sent, with the addresses and identification of its frames. */
  datatype Job = Job(p: Pkt, r: Route)

  function KeyOf(r: Route): bv32 {
    MakeSrc(r.src) | MakeDst(r.dst) | MakeId(r.ident)
  }

  ghost predicate Sendable(jobs: seq<Job>, size: nat) {
    forall i | 0 <= i < |jobs| :: |jobs[i].p.data| <= MAX_CAN_DATA_SIZE && |jobs[i].p.data| <= size
  }

  /** The next frame of job `job` arrives at time `now`. */
  datatype Tick = Tick(job: nat, now: Words.uint32)

  /** How many frames of each job have arrived, and when the last one did. */
  datatype Track = Track(count: nat, last: Words.uint32)

  function Tracks(n: nat, ticks: seq<Tick>): (ts: seq<Track>)
    ensures |ts| == n
  {
    if ticks == [] then seq(n, i => Track(0, 0))
    else
      var ts, t := Tracks(n, ticks[..|ticks| - 1]), ticks[|ticks| - 1];
      if t.job < n then ts[t.job := Track(ts[t.job].count + 1, t.now)] else ts
  }

  function Frames(job: Job): nat {
    FrameCount(|job.p.data|)
  }

  /** The jobs begun and not yet complete. */
  ghost function Open(jobs: seq<Job>, ts: seq<Track>): set<nat>
    requires |ts| == |jobs|
  {
    set i: nat | i < |jobs| && 0 < ts[i].count < Frames(jobs[i])
  }

  /** No open job but i itself uses the key of job i. */
  ghost predicate Alone(jobs: seq<Job>, ts: seq<Track>, i: nat)
    requires |ts| == |jobs| && i < |jobs|
  {
    forall j | j in Open(jobs, ts) && j != i :: KeyOf(jobs[j].r) != KeyOf(jobs[i].r)
  }

  /**
   * The tick brings the next frame of an incomplete job; a job begins only while fewer than five are open, none of
   * them uses its key, and every one of them has been heard from in the last second.
   */
  ghost predicate Fair(jobs: seq<Job>, ts: seq<Track>, t: Tick)
    requires |ts| == |jobs|
  {
    && t.job < |jobs| && ts[t.job].count < Frames(jobs[t.job])
    && (ts[t.job].count == 0 ==>
          && |Open(jobs, ts)| < PBUF_ELEMENTS
          && Alone(jobs, ts, t.job)
          && forall i | i in Open(jobs, ts) :: Words.U32(t.now - ts[i].last) <= PBUF_TIMEOUT_MS)
  }

  ghost predicate Schedule(jobs: seq<Job>, ticks: seq<Tick>) {
    forall k | 0 <= k < |ticks| :: Fair(jobs, Tracks(|jobs|, ticks[..k]), ticks[k])
  }

  /** The frames on the bus. */
  ghost function Traffic(jobs: seq<Job>, ticks: seq<Tick>): (evs: seq<Event>)
    requires Schedule(jobs, ticks) && forall i | 0 <= i < |jobs| :: |jobs[i].p.data| <= MAX_CAN_DATA_SIZE
    ensures |evs| == |ticks|
  {
    seq(|ticks|, k requires 0 <= k < |ticks| =>
      var ts := Tracks(|jobs|, ticks[..k]);
      assert Fair(jobs, ts, ticks[k]);
      var job := jobs[ticks[k].job];
      Event(Fragment(job.p, job.r, ts[ticks[k].job].count), ticks[k].now, true))
  }

  /** The jobs in the order in which their last frames arrived. */
  function Finished(jobs: seq<Job>, ticks: seq<Tick>): seq<nat> {
    if ticks == [] then []
    else
      var before, t := ticks[..|ticks| - 1], ticks[|ticks| - 1];
      Finished(jobs, before) +
      if t.job < |jobs| && Tracks(|jobs|, before)[t.job].count + 1 == Frames(jobs[t.job]) then [t.job] else []
  }

  function Packets(jobs: seq<Job>, order: seq<nat>): seq<Pkt>
    requires forall k | 0 <= k < |order| :: order[k] < |jobs|
  {
    seq(|order|, k requires 0 <= k < |order| => jobs[order[k]].p)
  }

  // What the elements hold

  /** The element of a job of which c frames have arrived. */
  function Slot(job: Job, t: Track): Elem
    requires |job.p.data| <= MAX_CAN_DATA_SIZE && 0 < t.count < Frames(job)
  {
    var len := |job.p.data|;
    Elem(true, Fragment(job.p, job.r, 0).id, FramesFor(len - Progress(len, t.count)), t.last,
         Some(Partial(job.p.id, len, job.p.data[..Progress(len, t.count)])))
  }

  /** Element s holds job owner[s], or is free. */
  ghost predicate Holds(jobs: seq<Job>, ts: seq<Track>, pb: seq<Elem>, owner: seq<int>, s: nat)
    requires |ts| == |jobs| && |pb| == |owner| == PBUF_ELEMENTS && s < PBUF_ELEMENTS
  {
    if owner[s] < 0 then !pb[s].used
    else
      && owner[s] < |jobs| && |jobs[owner[s]].p.data| <= MAX_CAN_DATA_SIZE
      && 0 < ts[owner[s]].count < Frames(jobs[owner[s]])
      && pb[s] == Slot(jobs[owner[s]], ts[owner[s]])
  }

  ghost predicate OneEach(owner: seq<int>) {
    forall s, t | 0 <= s < t < |owner| && owner[s] >= 0 :: owner[s] != owner[t]
  }

  ghost predicate Owned(jobs: seq<Job>, ts: seq<Track>, pb: seq<Elem>, owner: seq<int>) {
    && |ts| == |jobs| && |pb| == |owner| == PBUF_ELEMENTS
    && OneEach(owner)
    && (forall s | 0 <= s < PBUF_ELEMENTS :: Holds(jobs, ts, pb, owner, s))
    && (forall i | 0 <= i < |jobs| && 0 < ts[i].count < Frames(jobs[i]) :: i in owner)
  }

  /** Open jobs have distinct keys. */
  ghost predicate Apart(jobs: seq<Job>, ts: seq<Track>) {
    |ts| == |jobs| && forall i | i in Open(jobs, ts) :: Alone(jobs, ts, i)
  }

  lemma FragmentKey(p: Pkt, r: Route, k: nat)
    requires |p.data| <= MAX_CAN_DATA_SIZE && k < FrameCount(|p.data|)
    ensures Key(Fragment(p, r, k).id) == KeyOf(r)
  {
    hide Pack, Key, Small, MakeSrc, MakeDst, MakeId, Be32, Be16, Progress, FramesFor, FrameCount;
    var id := Fragment(p, r, k).id;
    forall kind, remain ensures Key(Pack(r.src, r.dst, r.ident, kind, remain)) == KeyOf(r) {
      PackKey(r.src, r.dst, r.ident, kind, remain);
    }
  }

  lemma FragmentHead(p: Pkt, r: Route)
    requires |p.data| <= MAX_CAN_DATA_SIZE
    ensures var f := Fragment(p, r, 0); var len := |p.data|;
            && Type(f.id) == BEGIN && Remain(f.id) == FramesFor(len - Progress(len, 1))
            && |f.data| >= 6 && ReadBe32(f.data[..4]) == p.id && ReadBe16(f.data[4..6]) == len
            && f.data[6..] == p.data[..Progress(len, 1)]
  {
    hide Pack, Type, Remain, Small, Be32, Be16, ReadBe32, ReadBe16;
    var len := |p.data|;
    var n := FramesFor(len - Progress(len, 1));
    var f := Fragment(p, r, 0);
    assert f.id == Pack(r.src, r.dst, r.ident, BEGIN, Small(n));
    PackRoundTrip(r.src, r.dst, r.ident, BEGIN, Small(n));
    PackRemain(r.src, r.dst, r.ident, BEGIN, n);
    assert f.data[..4] == Be32(p.id) && f.data[4..6] == Be16(len);
    Be32RoundTrip(p.id);
    Be16RoundTrip(len);
    BeginBit();
  }

  lemma BeginBit()
    ensures BEGIN & 0x1 == BEGIN && MORE & 0x1 == MORE != BEGIN
  {
  }

  lemma FragmentTail(p: Pkt, r: Route, k: nat)
    requires |p.data| <= MAX_CAN_DATA_SIZE && 0 < k < FrameCount(|p.data|)
    ensures var f := Fragment(p, r, k); var len := |p.data|;
            && Type(f.id) != BEGIN && Remain(f.id) == FramesFor(len - Progress(len, k + 1))
            && f.data == p.data[Progress(len, k)..Progress(len, k + 1)]
  {
    hide Pack, Type, Remain, Small, Be32, Be16;
    var len := |p.data|;
    var n := FramesFor(len - Progress(len, k + 1));
    PackRoundTrip(r.src, r.dst, r.ident, MORE, Small(n));
    PackRemain(r.src, r.dst, r.ident, MORE, n);
    BeginBit();
  }

  // One frame at a time

  /** The element of a job after its n-th frame, and the packet after its last. */
  function After(job: Job, n: nat, now: Words.uint32): Outcome
    requires |job.p.data| <= MAX_CAN_DATA_SIZE && 0 < n <= Frames(job)
  {
    if n == Frames(job) then Outcome(FREE, [job.p], 0, 0) else Outcome(Slot(job, Track(n, now)), [], 0, 0)
  }

  lemma HeadStep(job: Job, now: Words.uint32, size: nat)
    requires |job.p.data| <= MAX_CAN_DATA_SIZE && |job.p.data| <= size
    ensures var f := Fragment(job.p, job.r, 0); OnFrame(Taken(f.id, now), f, true, size) == After(job, 1, now)
  {
    hide Fragment, Type, Remain, ReadBe32, ReadBe16, FramesFor;
    FragmentHead(job.p, job.r);
    LastFragment(|job.p.data|, 1);
    assert [] + job.p.data[..Progress(|job.p.data|, 1)] == job.p.data[..Progress(|job.p.data|, 1)];
    if Progress(|job.p.data|, 1) == |job.p.data| {
      assert job.p.data[..|job.p.data|] == job.p.data;
    }
  }

  lemma TailStep(job: Job, t: Track, now: Words.uint32, size: nat)
    requires |job.p.data| <= MAX_CAN_DATA_SIZE && 0 < t.count < Frames(job)
    ensures OnFrame(Slot(job, t).(lastUsed := now), Fragment(job.p, job.r, t.count), true, size) ==
            After(job, t.count + 1, now)
  {
    hide Fragment, Type, Remain, FramesFor, FrameCount, Progress;
    var len, c := |job.p.data|, t.count;
    FragmentTail(job.p, job.r, c);
    LastFragment(len, c);
    LastFragment(len, c + 1);
    ProgressGrows(len, c);
    NextFragment(len, c);
    assert job.p.data[..Progress(len, c)] + job.p.data[Progress(len, c)..Progress(len, c + 1)]
        == job.p.data[..Progress(len, c + 1)];
    if Progress(len, c + 1) == len {
      assert job.p.data[..len] == job.p.data;
    }
  }

  lemma ProgressGrows(len: nat, c: nat)
    requires c >= 1
    ensures Progress(len, c) <= Progress(len, c + 1) <= len
  {
  }

  lemma SlotKey(job: Job, t: Track)
    requires |job.p.data| <= MAX_CAN_DATA_SIZE && 0 < t.count < Frames(job)
    ensures Key(Slot(job, t).cfpid) == KeyOf(job.r)
  {
    hide Key, KeyOf, Fragment, Progress, FramesFor, FrameCount;
    FragmentKey(job.p, job.r, 0);
  }

  /** An element answers to the key of its owner only. */
  lemma SlotMatches(jobs: seq<Job>, ts: seq<Track>, pb: seq<Elem>, owner: seq<int>, s: nat, i: nat, id: bv32)
    requires Owned(jobs, ts, pb, owner) && s < PBUF_ELEMENTS && i < |jobs| && Alone(jobs, ts, i)
    requires Key(id) == KeyOf(jobs[i].r)
    ensures Matches(pb[s], id) <==> owner[s] == i
  {
    hide Key, KeyOf, Slot, Frames;
    assert Holds(jobs, ts, pb, owner, s);
    if owner[s] >= 0 {
      SlotKey(jobs[owner[s]], ts[owner[s]]);
      SlotUsed(jobs[owner[s]], ts[owner[s]]);
      assert owner[s] in Open(jobs, ts);
    }
  }

  lemma SlotUsed(job: Job, t: Track)
    requires |job.p.data| <= MAX_CAN_DATA_SIZE && 0 < t.count < Frames(job)
    ensures Slot(job, t).used && Slot(job, t).lastUsed == t.last && Slot(job, t).packet.Some?
  {
    hide Fragment, Progress, FramesFor, FrameCount;
  }

  lemma FindOwner(jobs: seq<Job>, ts: seq<Track>, pb: seq<Elem>, owner: seq<int>, s: nat, i: nat, id: bv32)
    requires Owned(jobs, ts, pb, owner) && s <= PBUF_ELEMENTS && i < |jobs| && Alone(jobs, ts, i)
    requires Key(id) == KeyOf(jobs[i].r)
    requires if s < PBUF_ELEMENTS then owner[s] == i else i !in owner
    ensures Find(pb, id) == s
  {
    hide Key, KeyOf, Holds, Matches, Find, Alone;
    forall j | 0 <= j < PBUF_ELEMENTS ensures Matches(pb[j], id) <==> owner[j] == i {
      SlotMatches(jobs, ts, pb, owner, j, i, id);
    }
    FindIs(pb, id, s);
  }

  /** Fewer than five open jobs leave an element free, and no open one has timed out. */
  lemma FindFree(jobs: seq<Job>, ts: seq<Track>, pb: seq<Elem>, owner: seq<int>, t: Tick)
    requires Owned(jobs, ts, pb, owner) && Fair(jobs, ts, t) && ts[t.job].count == 0
    ensures FirstFree(pb, t.now) < PBUF_ELEMENTS && owner[FirstFree(pb, t.now)] < 0
  {
    hide Slot, FirstFree, Frames;
    var j := FirstFree(pb, t.now);
    if j == PBUF_ELEMENTS {
      forall s | 0 <= s < PBUF_ELEMENTS ensures owner[s] >= 0 && owner[s] in Open(jobs, ts) {
        assert Holds(jobs, ts, pb, owner, s);
      }
      Crowded(owner, Open(jobs, ts));
      assert false;
    } else if owner[j] >= 0 {
      OwnedIsFresh(jobs, ts, pb, owner, t, j);
      assert false;
    }
  }

  lemma OwnedIsFresh(jobs: seq<Job>, ts: seq<Track>, pb: seq<Elem>, owner: seq<int>, t: Tick, s: nat)
    requires Owned(jobs, ts, pb, owner) && Fair(jobs, ts, t) && ts[t.job].count == 0
    requires s < PBUF_ELEMENTS && owner[s] >= 0
    ensures pb[s].used && !Stale(pb[s], t.now)
  {
    hide Slot, Frames;
    assert Holds(jobs, ts, pb, owner, s);
    SlotUsed(jobs[owner[s]], ts[owner[s]]);
    assert owner[s] in Open(jobs, ts);
  }

  lemma Crowded(owner: seq<int>, open: set<nat>)
    requires |owner| == PBUF_ELEMENTS && OneEach(owner)
    requires forall s | 0 <= s < PBUF_ELEMENTS :: owner[s] >= 0 && owner[s] in open
    ensures |open| >= PBUF_ELEMENTS
  {
    var rest: set<nat> := open - {owner[0], owner[1], owner[2], owner[3], owner[4]};
    assert open == rest + {owner[0], owner[1], owner[2], owner[3], owner[4]};
    assert |{owner[0], owner[1], owner[2], owner[3], owner[4]}| == 5;
  }

  /** The track of the ticked job after the tick. */
  function Ticked(ts: seq<Track>, t: Tick): seq<Track>
    requires t.job < |ts|
  {
    ts[t.job := Track(ts[t.job].count + 1, t.now)]
  }

  /** Storing the outcome of a job's next frame in its element keeps the elements right. */
  lemma PutKeepsOwned(jobs: seq<Job>, ts: seq<Track>, r: Rx, owner: seq<int>, t: Tick, s: nat)
    requires Owned(jobs, ts, r.pb, owner) && Fair(jobs, ts, t) && s < PBUF_ELEMENTS
    requires |jobs[t.job].p.data| <= MAX_CAN_DATA_SIZE
    requires if ts[t.job].count == 0 then owner[s] < 0 && t.job !in owner else owner[s] == t.job
    ensures var n := ts[t.job].count + 1;
            Owned(jobs, Ticked(ts, t), Put(r, s, After(jobs[t.job], n, t.now)).pb,
                  owner[s := if n == Frames(jobs[t.job]) then -1 else t.job as int])
  {
    hide Slot, Frames;
    var n := ts[t.job].count + 1;
    var ts' := Ticked(ts, t);
    var pb' := Put(r, s, After(jobs[t.job], n, t.now)).pb;
    var owner' := owner[s := if n == Frames(jobs[t.job]) then -1 else t.job as int];
    forall k | 0 <= k < PBUF_ELEMENTS ensures Holds(jobs, ts', pb', owner', k) {
      assert Holds(jobs, ts, r.pb, owner, k);
    }
    forall i | 0 <= i < |jobs| && 0 < ts'[i].count < Frames(jobs[i]) ensures i in owner' {
      if i == t.job {
        assert owner'[s] == i;
      } else {
        var k :| 0 <= k < |owner| && owner[k] == i;
        assert owner'[k] == i;
      }
    }
  }

  lemma FreeIsUnowned(jobs: seq<Job>, ts: seq<Track>, pb: seq<Elem>, owner: seq<int>, i: nat)
    requires Owned(jobs, ts, pb, owner) && i < |jobs| && ts[i].count == 0
    ensures i !in owner
  {
    hide Slot, Frames;
    forall k | 0 <= k < |owner| ensures owner[k] != i {
      assert Holds(jobs, ts, pb, owner, k);
    }
  }

  /** A job that begins or goes on keeps the keys of open jobs distinct. */
  lemma TickKeepsApart(jobs: seq<Job>, ts: seq<Track>, t: Tick)
    requires Apart(jobs, ts) && Fair(jobs, ts, t)
    ensures Alone(jobs, ts, t.job) && Apart(jobs, Ticked(ts, t))
  {
    hide KeyOf, Frames;
    var ts' := Ticked(ts, t);
    if ts[t.job].count > 0 {
      assert t.job in Open(jobs, ts);
    }
    forall i, j | i in Open(jobs, ts') && j in Open(jobs, ts') && j != i ensures KeyOf(jobs[j].r) != KeyOf(jobs[i].r) {
      assert i == t.job || i in Open(jobs, ts);
      assert j == t.job || j in Open(jobs, ts);
    }
  }

  /** One tick: the receiver takes the frame without complaint and delivers the packet with its last frame. */
  lemma TickKeepsOwned(jobs: seq<Job>, ts: seq<Track>, r: Rx, owner: seq<int>, t: Tick, size: nat)
    returns (owner': seq<int>)
    requires Sendable(jobs, size) && Owned(jobs, ts, r.pb, owner) && HasPackets(r.pb)
    requires Apart(jobs, ts) && Fair(jobs, ts, t)
    ensures var job, c := jobs[t.job], ts[t.job].count;
            var r' := Receive(r, Fragment(job.p, job.r, c), t.now, true, size);
            && Owned(jobs, Ticked(ts, t), r'.pb, owner')
            && r'.out == (if c + 1 == Frames(job) then r.out + [job.p] else r.out)
            && r'.frame == r.frame && r'.rxError == r.rxError
    ensures Apart(jobs, Ticked(ts, t))
  {
    hide Holds, OneEach, Slot, Key, KeyOf, OnFrame, Fragment, Find, FirstFree, Type, Alone;
    var job, c := jobs[t.job], ts[t.job].count;
    var f := Fragment(job.p, job.r, c);
    FragmentKey(job.p, job.r, c);
    TickKeepsApart(jobs, ts, t);
    var s: nat;
    if c == 0 {
      FreeIsUnowned(jobs, ts, r.pb, owner, t.job);
      FindOwner(jobs, ts, r.pb, owner, PBUF_ELEMENTS, t.job, f.id);
      FindFree(jobs, ts, r.pb, owner, t);
      s := FirstFree(r.pb, t.now);
      FragmentHead(job.p, job.r);
      HeadStep(job, t.now, size);
    } else {
      s := OwnerOf(jobs, ts, r.pb, owner, t.job);
      FindOwner(jobs, ts, r.pb, owner, s, t.job, f.id);
      TailStep(job, ts[t.job], t.now, size);
    }
    PutKeepsOwned(jobs, ts, r, owner, t, s);
    owner' := owner[s := if c + 1 == Frames(job) then -1 else t.job as int];
  }

  lemma OwnerOf(jobs: seq<Job>, ts: seq<Track>, pb: seq<Elem>, owner: seq<int>, i: nat) returns (s: nat)
    requires Owned(jobs, ts, pb, owner) && i < |jobs| && 0 < ts[i].count < Frames(jobs[i])
    ensures s < PBUF_ELEMENTS && owner[s] == i && |jobs[i].p.data| <= MAX_CAN_DATA_SIZE
    ensures pb[s] == Slot(jobs[i], ts[i])
  {
    hide Slot, Frames;
    s :| 0 <= s < |owner| && owner[s] == i;
    assert Holds(jobs, ts, pb, owner, s);
  }

  // Whole schedules

  /** Each job ends once, exactly when all its frames have arrived. */
  ghost predicate EndsOnce(jobs: seq<Job>, ts: seq<Track>, order: seq<nat>)
    requires |ts| == |jobs|
  {
    && (forall k | 0 <= k < |order| :: order[k] < |jobs|)
    && (forall k, l | 0 <= k < l < |order| :: order[k] != order[l])
    && (forall i | 0 <= i < |jobs| :: ts[i].count <= Frames(jobs[i]))
    && (forall i | 0 <= i < |jobs| :: ts[i].count == Frames(jobs[i]) <==> i in order)
  }

  lemma TracksSnoc(n: nat, ticks: seq<Tick>)
    requires |ticks| > 0 && ticks[|ticks| - 1].job < n
    ensures Tracks(n, ticks) == Ticked(Tracks(n, ticks[..|ticks| - 1]), ticks[|ticks| - 1])
  {
  }

  lemma ScheduleInit(jobs: seq<Job>, ticks: seq<Tick>)
    requires Schedule(jobs, ticks) && |ticks| > 0
    ensures var before := ticks[..|ticks| - 1];
            Schedule(jobs, before) && Fair(jobs, Tracks(|jobs|, before), ticks[|ticks| - 1])
  {
    hide Fair, Tracks;
    var before := ticks[..|ticks| - 1];
    forall k | 0 <= k < |before| ensures Fair(jobs, Tracks(|jobs|, before[..k]), before[k]) {
      assert before[..k] == ticks[..k];
    }
  }

  lemma {:induction false} FinishedEndsOnce(jobs: seq<Job>, ticks: seq<Tick>)
    requires Schedule(jobs, ticks)
    ensures EndsOnce(jobs, Tracks(|jobs|, ticks), Finished(jobs, ticks))
  {
    hide Schedule, Frames;
    if ticks != [] {
      var before, t := ticks[..|ticks| - 1], ticks[|ticks| - 1];
      ScheduleInit(jobs, ticks);
      FinishedEndsOnce(jobs, before);
      TracksSnoc(|jobs|, ticks);
      EndsOnceStep(jobs, Tracks(|jobs|, before), Finished(jobs, before), t);
    } else {
      assert forall i | 0 <= i < |jobs| :: Frames(jobs[i]) >= 1 by {
        forall i | 0 <= i < |jobs| ensures Frames(jobs[i]) >= 1 {
          SomeFrame(jobs[i]);
        }
      }
    }
  }

  lemma SomeFrame(job: Job)
    ensures Frames(job) >= 1
  {
  }

  lemma EndsOnceStep(jobs: seq<Job>, ts: seq<Track>, order: seq<nat>, t: Tick)
    requires |ts| == |jobs| && EndsOnce(jobs, ts, order) && t.job < |jobs| && ts[t.job].count < Frames(jobs[t.job])
    ensures EndsOnce(jobs, Ticked(ts, t),
                     if ts[t.job].count + 1 == Frames(jobs[t.job]) then order + [t.job] else order + [])
  {
    hide Frames;
    assert order + [] == order;
  }

  lemma TrafficInit(jobs: seq<Job>, ticks: seq<Tick>)
    requires Schedule(jobs, ticks) && |ticks| > 0
    requires forall i | 0 <= i < |jobs| :: |jobs[i].p.data| <= MAX_CAN_DATA_SIZE
    ensures var n := |ticks| - 1;
            && Schedule(jobs, ticks[..n]) && Fair(jobs, Tracks(|jobs|, ticks[..n]), ticks[n])
            && Traffic(jobs, ticks)[..n] == Traffic(jobs, ticks[..n])
            && var job, c := jobs[ticks[n].job], Tracks(|jobs|, ticks[..n])[ticks[n].job].count;
               Traffic(jobs, ticks)[n] == Event(Fragment(job.p, job.r, c), ticks[n].now, true)
  {
    hide Fair, Tracks, Fragment;
    ScheduleInit(jobs, ticks);
    var n := |ticks| - 1;
    forall k | 0 <= k < n ensures Traffic(jobs, ticks)[k] == Traffic(jobs, ticks[..n])[k] {
      assert ticks[..n][..k] == ticks[..k];
    }
  }

  lemma AllShort(jobs: seq<Job>, size: nat)
    requires Sendable(jobs, size)
    ensures forall i | 0 <= i < |jobs| :: |jobs[i].p.data| <= MAX_CAN_DATA_SIZE
  {
  }

  lemma RunSnoc(evs: seq<Event>, size: nat)
    requires |evs| > 0
    ensures var n := |evs| - 1;
            Run(evs, size) == Receive(Run(evs[..n], size), evs[n].f, evs[n].now, evs[n].avail, size)
  {
    hide Receive;
  }

  lemma FinishedSnoc(jobs: seq<Job>, ticks: seq<Tick>)
    requires |ticks| > 0 && ticks[|ticks| - 1].job < |jobs|
    requires var before := Finished(jobs, ticks[..|ticks| - 1]); forall k | 0 <= k < |before| :: before[k] < |jobs|
    ensures var n, order := |ticks| - 1, Finished(jobs, ticks);
            var before, i := Finished(jobs, ticks[..n]), ticks[n].job;
            && (forall k | 0 <= k < |order| :: order[k] < |jobs|)
            && Packets(jobs, order) == if Tracks(|jobs|, ticks[..n])[i].count + 1 == Frames(jobs[i])
                                       then Packets(jobs, before) + [jobs[i].p] else Packets(jobs, before)
  {
    hide Tracks, Frames;
  }

  lemma NothingRun(jobs: seq<Job>, size: nat)
    requires forall i | 0 <= i < |jobs| :: |jobs[i].p.data| <= MAX_CAN_DATA_SIZE
    ensures Traffic(jobs, []) == [] && Run([], size) == IDLE && Finished(jobs, []) == [] && Packets(jobs, []) == []
    ensures Owned(jobs, Tracks(|jobs|, []), IDLE.pb, [-1, -1, -1, -1, -1]) && Apart(jobs, Tracks(|jobs|, []))
  {
    hide Owned;
    NothingOwned(jobs, Tracks(|jobs|, []));
  }

  lemma {:induction false} TrafficRun(jobs: seq<Job>, ticks: seq<Tick>, size: nat) returns (owner: seq<int>)
    requires Sendable(jobs, size) && Schedule(jobs, ticks)
    ensures var r := Run(Traffic(jobs, ticks), size);
            && Owned(jobs, Tracks(|jobs|, ticks), r.pb, owner) && Apart(jobs, Tracks(|jobs|, ticks))
            && (forall k | 0 <= k < |Finished(jobs, ticks)| :: Finished(jobs, ticks)[k] < |jobs|)
            && r.out == Packets(jobs, Finished(jobs, ticks)) && r.frame == 0 && r.rxError == 0
  {
    hide Owned, Apart, Schedule, Receive, Fragment, Frames, Fair, Traffic, Run, Finished, Packets, Tracks, Sendable;
    if ticks == [] {
      owner := [-1, -1, -1, -1, -1];
      AllShort(jobs, size);
      NothingRun(jobs, size);
    } else {
      var n := |ticks| - 1;
      AllShort(jobs, size);
      TrafficInit(jobs, ticks);
      var owner0 := TrafficRun(jobs, ticks[..n], size);
      var before := Tracks(|jobs|, ticks[..n]);
      owner := TickKeepsOwned(jobs, before, Run(Traffic(jobs, ticks[..n]), size), owner0, ticks[n], size);
      TickedJob(jobs, ticks);
      TracksSnoc(|jobs|, ticks);
      FinishedSnoc(jobs, ticks);
      RunSnoc(Traffic(jobs, ticks), size);
    }
  }

  lemma TickedJob(jobs: seq<Job>, ticks: seq<Tick>)
    requires |ticks| > 0 && Fair(jobs, Tracks(|jobs|, ticks[..|ticks| - 1]), ticks[|ticks| - 1])
    ensures ticks[|ticks| - 1].job < |jobs|
  {
  }

  lemma NothingOwned(jobs: seq<Job>, ts: seq<Track>)
    requires |ts| == |jobs| && forall i | 0 <= i < |jobs| :: ts[i].count == 0
    ensures Owned(jobs, ts, IDLE.pb, [-1, -1, -1, -1, -1])
  {
    hide Slot, Frames;
  }

  /**
   * However the frames of csp_can_tx are interleaved, with at most five packets open at once, and none of the open
   * ones with the key of another or silent for over a second when another begins, csp_can_rx delivers each packet
   * once, unchanged, with its last frame, and nothing else; it counts no error. Packets of every length up to 2042
   * that fits a buffer. A key may be used again once its packet is complete.
   */
  lemma InterleavedDelivery(jobs: seq<Job>, ticks: seq<Tick>, size: nat)
    requires Sendable(jobs, size) && Schedule(jobs, ticks)
    ensures EndsOnce(jobs, Tracks(|jobs|, ticks), Finished(jobs, ticks))
    ensures var r := Run(Traffic(jobs, ticks), size);
            r.out == Packets(jobs, Finished(jobs, ticks)) && r.frame == 0 && r.rxError == 0
  {
    hide Owned, Schedule, Run, Finished, Tracks;
    FinishedEndsOnce(jobs, ticks);
    var owner := TrafficRun(jobs, ticks, size);
  }
}
