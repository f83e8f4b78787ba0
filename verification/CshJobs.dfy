/** The job table of the C shell (bin/csh/sh.proc.c): a list of processes, which
    are linked into one ring for each job. */
module CshJobs {

  const BIGINDEX := 9

  datatype Flag =
    | Running | Stopped | NExited | AExited | Signaled | Interrupted
    | Notify | Time | Foregnd | Dumped | Diag | Pou | Reported | PTime | NeedNote

  /** `PALLSTATES` */
  const STATES: set<Flag> := {Running, Stopped, NExited, AExited, Signaled, Interrupted}

  class Process {
    var next: Process?
    var friends: Process?
    var flags: set<Flag>
    var reason: int
    var index: int
    var pid: int
    var jobid: int

    constructor (pid: int, flags: set<Flag>)
      ensures next == null && friends == null && reason == 0 && index == 0 && jobid == 0
      ensures this.pid == pid && this.flags == flags
    {
      this.pid, this.flags := pid, flags;
      next, friends, reason, index, jobid := null, null, 0, 0, 0;
    }
  }

  /** What a process structure holds, apart from its place in the list. */
  datatype Info = Info(friends: Process?, flags: set<Flag>, index: int, pid: int, jobid: int)

  type Tab = map<Process, Info>

  /** The ring that each process is in, from its leader on. */
  type Rings = map<Process, seq<Process>>

  // ------------------------------------------------------- a table by value

  ghost predicate Distinct(r: seq<Process>) {
    forall i, j :: 0 <= i < j < |r| ==> r[i] != r[j]
  }

  /** Each process is linked to the next one, and the last one to the first. */
  ghost predicate Linked(tab: Tab, r: seq<Process>) {
    r != [] && Distinct(r) && forall i :: 0 <= i < |r| ==> LinkedAt(tab, r, i)
  }

  ghost predicate LinkedAt(tab: Tab, r: seq<Process>, i: nat)
    requires i < |r|
  {
    r[i] in tab && tab[r[i]].friends == if i + 1 < |r| then r[i + 1] else r[0]
  }

  /** A job that has not been flushed: its leader's process number is that of the job. */
  ghost predicate LiveRing(tab: Tab, r: seq<Process>) {
    && r != [] && r[0] in tab && tab[r[0]].index >= 1
    && forall p :: p in r ==> InJob(tab, r[0], p)
  }

  ghost predicate InJob(tab: Tab, l: Process, p: Process)
    requires l in tab
  {
    && p in tab && tab[p].pid != 0 && tab[p].jobid == tab[l].pid && tab[p].index == tab[l].index
    && (tab[p].pid == tab[l].pid <==> p == l)
  }

  ghost predicate DeadRing(tab: Tab, r: seq<Process>) {
    forall p :: p in r ==> p in tab && tab[p].pid == 0 && tab[p].index == 0 && tab[p].jobid != 0
  }

  ghost predicate RingOf(tab: Tab, rings: Rings, p: Process) {
    && p in rings && p in rings[p] && Linked(tab, rings[p])
    && (LiveRing(tab, rings[p]) || DeadRing(tab, rings[p]))
    && forall q :: q in rings[p] ==> q in rings && rings[q] == rings[p]
  }

  ghost predicate AllRings(tab: Tab, rings: Rings) {
    rings.Keys == tab.Keys && forall p :: p in tab ==> RingOf(tab, rings, p)
  }

  /** The leader of a job that has not been flushed. */
  predicate Leader(tab: Tab, p: Process) {
    p in tab && tab[p].pid != 0 && tab[p].pid == tab[p].jobid
  }

  /** No two processes that have not been flushed have the same number. */
  ghost predicate Pids(tab: Tab) {
    forall p, q :: p in tab && q in tab && p != q && tab[p].pid != 0 ==> tab[p].pid != tab[q].pid
  }

  /** Jobs have different indices, and the largest one is known. */
  ghost predicate Indexed(tab: Tab, maxindex: int) {
    && (forall p, q :: p in tab && q in tab && Leader(tab, p) && Leader(tab, q) && p != q ==> tab[p].index != tab[q].index)
    && (forall p :: p in tab && Leader(tab, p) ==> 1 <= tab[p].index <= maxindex)
    && (maxindex == 0 || exists p :: p in tab && Leader(tab, p) && tab[p].index == maxindex)
  }

  /** A process is in exactly one state, and only one that has not ended counts
      as reported. */
  predicate Orderly(flags: set<Flag>) {
    && (exists s :: s in STATES && flags * STATES == {s})
    && (Reported in flags ==> Running in flags || Stopped in flags)
  }

  ghost predicate States(tab: Tab) {
    forall p :: p in tab ==> Orderly(tab[p].flags)
  }

  /** The current and the previous job are jobs, and different ones. */
  ghost predicate Current(tab: Tab, cur: Process?, prev: Process?) {
    && (cur != null ==> Leader(tab, cur))
    && (prev != null ==> Leader(tab, prev) && cur != null && cur != prev)
  }

  ghost predicate Listed(procs: seq<Process>, tab: Tab) {
    Distinct(procs) && (forall p :: p in procs ==> p in tab) && (forall p :: p in tab ==> p in procs)
  }

  ghost predicate Sound(procs: seq<Process>, tab: Tab, rings: Rings, maxindex: int) {
    && Listed(procs, tab) && AllRings(tab, rings) && Pids(tab) && Indexed(tab, maxindex) && States(tab)
  }

  /** In a job that has not been flushed just the first process of the ring is a leader. */
  lemma LeaderFirst(tab: Tab, rings: Rings, p: Process)
    requires AllRings(tab, rings) && p in tab
    ensures p in rings && rings[p] != [] && rings[p][0] in tab && rings[p][0] in rings[p]
    ensures Leader(tab, p) <==> tab[p].pid != 0 && p == rings[p][0]
    ensures tab[p].pid != 0 ==> LiveRing(tab, rings[p]) && Leader(tab, rings[p][0])
    ensures tab[p].pid == 0 ==> DeadRing(tab, rings[p])
  {
    assert RingOf(tab, rings, p);
    var r := rings[p];
    assert LinkedAt(tab, r, 0) && r[0] in r;
    if tab[p].pid != 0 {
      assert LiveRing(tab, r);
      assert InJob(tab, r[0], p) && InJob(tab, r[0], r[0]);
    }
  }

  // ------------------------------------------------------------- changes

  /** Only flags differ. */
  ghost predicate SameButFlags(tab: Tab, tab': Tab) {
    tab'.Keys == tab.Keys && forall p :: p in tab ==> tab'[p] == tab[p].(flags := tab'[p].flags)
  }

  lemma FlagsOnly(procs: seq<Process>, tab: Tab, rings: Rings, maxindex: int, tab': Tab)
    requires Sound(procs, tab, rings, maxindex) && SameButFlags(tab, tab') && States(tab')
    ensures Sound(procs, tab', rings, maxindex)
    ensures forall p :: p in tab ==> Leader(tab', p) == Leader(tab, p)
  {
    hide AllRings, Pids, Indexed, States, Listed;
    FlagsRings(tab, rings, tab');
    FlagsRest(procs, tab, maxindex, tab');
  }

  lemma FlagsRings(tab: Tab, rings: Rings, tab': Tab)
    requires AllRings(tab, rings) && SameButFlags(tab, tab')
    ensures AllRings(tab', rings)
  {
    hide Linked, LiveRing, DeadRing;
    forall p | p in tab' ensures RingOf(tab', rings, p) {
      assert RingOf(tab, rings, p);
      SameRing(tab, tab', rings[p]);
    }
  }

  lemma FlagsRest(procs: seq<Process>, tab: Tab, maxindex: int, tab': Tab)
    requires Listed(procs, tab) && Pids(tab) && Indexed(tab, maxindex) && SameButFlags(tab, tab')
    ensures Listed(procs, tab') && Pids(tab') && Indexed(tab', maxindex)
    ensures forall p :: p in tab ==> Leader(tab', p) == Leader(tab, p)
  {
  }

  lemma SameRing(tab: Tab, tab': Tab, r: seq<Process>)
    requires Linked(tab, r) && forall p :: p in r && p in tab ==> p in tab' && tab'[p] == tab[p].(flags := tab'[p].flags)
    ensures Linked(tab', r) && (LiveRing(tab, r) ==> LiveRing(tab', r)) && (DeadRing(tab, r) ==> DeadRing(tab', r))
  {
    forall i | 0 <= i < |r| ensures LinkedAt(tab', r, i) {
      assert LinkedAt(tab, r, i) && r[i] in r;
    }
    if LiveRing(tab, r) {
      assert r[0] in r;
      forall p | p in r ensures InJob(tab', r[0], p) {
        assert InJob(tab, r[0], p);
      }
    }
  }

  /** A job of which every process has been flushed. */
  function Flushed(tab: Tab, r: seq<Process>): Tab {
    map p | p in tab :: if p in r then tab[p].(pid := 0, index := 0, flags := tab[p].flags - {NeedNote}) else tab[p]
  }

  /** The largest index of all jobs. */
  ghost predicate MaxIndex(tab: Tab, m: int) {
    && (forall p :: p in tab && Leader(tab, p) ==> tab[p].index <= m)
    && (m == 0 || exists p :: p in tab && Leader(tab, p) && tab[p].index == m)
  }

  lemma FlushFacts(procs: seq<Process>, tab: Tab, rings: Rings, maxindex: int, l: Process, m: int)
    requires Sound(procs, tab, rings, maxindex) && Leader(tab, l) && MaxIndex(Flushed(tab, rings[l]), m)
    ensures Sound(procs, Flushed(tab, rings[l]), rings, m)
    ensures forall p :: p in tab ==> (Leader(Flushed(tab, rings[l]), p) <==> Leader(tab, p) && p != l)
  {
    hide AllRings, Listed, Pids, Indexed, States;
    LeaderFirst(tab, rings, l);
    FlushAllRings(tab, rings, l);
    FlushLeaders(tab, rings, l);
    FlushRest(procs, tab, rings[l], maxindex, l, m);
  }

  lemma FlushAllRings(tab: Tab, rings: Rings, l: Process)
    requires AllRings(tab, rings) && l in tab
    ensures AllRings(Flushed(tab, rings[l]), rings)
  {
    hide Linked, LiveRing, DeadRing;
    var tab' := Flushed(tab, rings[l]);
    forall p | p in tab ensures RingOf(tab', rings, p) {
      assert RingOf(tab, rings, p);
      FlushRing(tab, rings, l, p);
    }
  }

  lemma FlushLeaders(tab: Tab, rings: Rings, l: Process)
    requires AllRings(tab, rings) && Leader(tab, l)
    ensures l in rings && l in rings[l]
    ensures forall p :: p in tab ==> (Leader(Flushed(tab, rings[l]), p) <==> Leader(tab, p) && p != l)
  {
    LeaderFirst(tab, rings, l);
    assert RingOf(tab, rings, l);
    forall p | p in tab ensures Leader(Flushed(tab, rings[l]), p) <==> Leader(tab, p) && p != l {
      LeaderFirst(tab, rings, p);
      if p in rings[l] {
        assert rings[p] == rings[l];
      }
    }
  }

  lemma FlushRest(procs: seq<Process>, tab: Tab, r: seq<Process>, maxindex: int, l: Process, m: int)
    requires Listed(procs, tab) && Pids(tab) && Indexed(tab, maxindex) && States(tab) && MaxIndex(Flushed(tab, r), m) && l in r
    requires forall p :: p in tab ==> (Leader(Flushed(tab, r), p) <==> Leader(tab, p) && p != l)
    ensures Listed(procs, Flushed(tab, r)) && Pids(Flushed(tab, r)) && Indexed(Flushed(tab, r), m) && States(Flushed(tab, r))
  {
    var tab' := Flushed(tab, r);
    assert forall p :: p in tab && Leader(tab', p) ==> tab'[p].index == tab[p].index;
    forall p | p in tab' ensures Orderly(tab'[p].flags) {
      assert Orderly(tab[p].flags);
      assert (tab[p].flags - {NeedNote}) * STATES == tab[p].flags * STATES;
    }
  }

  /** If the flushed job did not have the largest index, the largest one stays. */
  lemma SameMax(tab: Tab, rings: Rings, l: Process, maxindex: int)
    requires AllRings(tab, rings) && Indexed(tab, maxindex) && Leader(tab, l) && tab[l].index != maxindex
    ensures MaxIndex(Flushed(tab, rings[l]), maxindex)
  {
    FlushLeaders(tab, rings, l);
    var tab' := Flushed(tab, rings[l]);
    forall p | p in tab' && Leader(tab', p) ensures tab'[p].index == tab[p].index {
      assert tab'[p].pid != 0;
    }
    if maxindex != 0 {
      var p :| p in tab && Leader(tab, p) && tab[p].index == maxindex;
      assert Leader(tab', p);
    }
  }

  /** The largest index of all processes is the largest index of all jobs. */
  lemma LargestIndex(tab: Tab, rings: Rings, m: int)
    requires AllRings(tab, rings) && m >= 0 && forall p :: p in tab ==> tab[p].index <= m
    requires m == 0 || exists p :: p in tab && tab[p].index == m
    ensures MaxIndex(tab, m)
  {
    if m != 0 {
      var p :| p in tab && tab[p].index == m;
      LeaderFirst(tab, rings, p);
      if tab[p].pid != 0 {
        assert InJob(tab, rings[p][0], p);
      } else {
        assert RingOf(tab, rings, p);
      }
    }
  }

  lemma FlushRing(tab: Tab, rings: Rings, l: Process, p: Process)
    requires AllRings(tab, rings) && l in tab && p in tab
    ensures var tab' := Flushed(tab, rings[l]);
      Linked(tab', rings[p]) && (LiveRing(tab', rings[p]) || DeadRing(tab', rings[p]))
  {
    var r, s := rings[l], rings[p];
    var tab' := Flushed(tab, r);
    assert RingOf(tab, rings, p) && RingOf(tab, rings, l);
    forall i | 0 <= i < |s| ensures LinkedAt(tab', s, i) {
      assert LinkedAt(tab, s, i);
    }
    if p in r {
      assert rings[p] == r;
      forall q | q in s ensures q in tab && tab[q].jobid != 0 {
        if LiveRing(tab, s) {
          assert InJob(tab, s[0], q) && InJob(tab, s[0], s[0]);
        }
      }
      assert DeadRing(tab', s);
    } else {
      forall q | q in s ensures q !in r {
        assert rings[q] == s;
      }
      SameRing(tab, tab', s);
    }
  }

  // ------------------------------------------------- current and previous job

  /** The first job of the list other than `cur` and `pp`, one that is stopped if `stopped`. */
  function FirstJob(procs: seq<Process>, tab: Tab, cur: Process?, pp: Process, stopped: bool): (r: Process?)
    ensures r != null ==> r in procs && Leader(tab, r) && r != cur && r != pp && (stopped ==> Stopped in tab[r].flags)
    ensures r == null ==> forall p :: p in procs && Leader(tab, p) && p != cur && p != pp ==> stopped && Stopped !in tab[p].flags
  {
    if procs == [] then null
    else if IsOther(tab, cur, pp, procs[0]) && (stopped ==> Stopped in tab[procs[0]].flags) then procs[0]
    else FirstJob(procs[1..], tab, cur, pp, stopped)
  }

  predicate IsOther(tab: Tab, cur: Process?, pp: Process, p: Process) {
    p != cur && p != pp && Leader(tab, p)
  }

  /** The most recent job that is neither `cur` nor `pp`, preferably a stopped one. */
  function MostRecent(procs: seq<Process>, tab: Tab, cur: Process?, pp: Process): (r: Process?)
    ensures r != null ==> r in procs && Leader(tab, r) && r != cur && r != pp
    ensures r == null ==> forall p :: p in procs && Leader(tab, p) ==> p == cur || p == pp
  {
    var r := FirstJob(procs, tab, cur, pp, true);
    if r != null then r else FirstJob(procs, tab, cur, pp, false)
  }

  /** The current and the previous job once `pp` is neither. */
  function Cleared(procs: seq<Process>, tab: Tab, cur: Process?, prev: Process?, pp: Process): (Process?, Process?) {
    if pp == cur then
      var cur' := if prev != null then prev else MostRecent(procs, tab, cur, pp);
      (cur', MostRecent(procs, tab, cur', pp))
    else if pp == prev then (cur, MostRecent(procs, tab, cur, pp))
    else (cur, prev)
  }

  /** Clearing a job keeps the two pointers at different jobs, neither of which
      is that job; if there are other jobs, one of them is current unless none was. */
  lemma ClearedFacts(procs: seq<Process>, tab: Tab, cur: Process?, prev: Process?, pp: Process)
    requires Current(tab, cur, prev) && Listed(procs, tab)
    ensures var (cur', prev') := Cleared(procs, tab, cur, prev, pp);
      && Current(tab, cur', prev') && cur' != pp && prev' != pp
      && (cur != null && cur' == null ==> forall p :: p in tab && Leader(tab, p) ==> p == pp)
  {
  }

  /** The job at `k` is preferred to all others: it is stopped and no stopped one stands
      before it, or none is stopped and none at all stands before it. */
  predicate Preferred(procs: seq<Process>, tab: Tab, cur: Process?, pp: Process, k: nat) {
    && k < |procs| && IsOther(tab, cur, pp, procs[k])
    && if Stopped in tab[procs[k]].flags then
         forall j :: 0 <= j < k && IsOther(tab, cur, pp, procs[j]) ==> Stopped !in tab[procs[j]].flags
       else
         forall j :: 0 <= j < |procs| && IsOther(tab, cur, pp, procs[j]) ==> k <= j && Stopped !in tab[procs[j]].flags
  }

  lemma {:induction false} FirstJobAt(procs: seq<Process>, tab: Tab, cur: Process?, pp: Process, stopped: bool) returns (k: nat)
    requires FirstJob(procs, tab, cur, pp, stopped) != null
    ensures k < |procs| && procs[k] == FirstJob(procs, tab, cur, pp, stopped)
    ensures forall j :: 0 <= j < k && IsOther(tab, cur, pp, procs[j]) ==> stopped && Stopped !in tab[procs[j]].flags
  {
    if IsOther(tab, cur, pp, procs[0]) && (stopped ==> Stopped in tab[procs[0]].flags) {
      k := 0;
    } else {
      var i := FirstJobAt(procs[1..], tab, cur, pp, stopped);
      k := i + 1;
    }
  }

  lemma MostRecentMeans(procs: seq<Process>, tab: Tab, cur: Process?, pp: Process) returns (k: nat)
    ensures var r := MostRecent(procs, tab, cur, pp);
      if r == null then forall j :: 0 <= j < |procs| ==> !IsOther(tab, cur, pp, procs[j])
      else Preferred(procs, tab, cur, pp, k) && procs[k] == r
  {
    k := 0;
    var stopped := FirstJob(procs, tab, cur, pp, true) != null;
    if MostRecent(procs, tab, cur, pp) != null {
      k := FirstJobAt(procs, tab, cur, pp, stopped);
    }
  }

  /** The previous job becomes current if the current one goes; what is left vacant
      goes to the preferred of the others. */
  lemma ClearedMeans(procs: seq<Process>, tab: Tab, cur: Process?, prev: Process?, pp: Process) returns (k: nat, l: nat)
    ensures var (cur', prev') := Cleared(procs, tab, cur, prev, pp);
      && (pp != cur ==> cur' == cur)
      && (pp != cur && pp != prev ==> prev' == prev)
      && (pp == cur && prev != null ==> cur' == prev)
      && (pp == cur && prev == null && cur' != null ==> Preferred(procs, tab, cur, pp, k) && procs[k] == cur')
      && (pp == cur || pp == prev ==>
            if prev' == null then forall j :: 0 <= j < |procs| ==> !IsOther(tab, cur', pp, procs[j])
            else Preferred(procs, tab, cur', pp, l) && procs[l] == prev')
  {
    hide MostRecent, Preferred;
    k := MostRecentMeans(procs, tab, cur, pp);
    l := MostRecentMeans(procs, tab, Cleared(procs, tab, cur, prev, pp).0, pp);
  }

  // ----------------------------------------------------- a process is added

  /** `pp` leads a new job. */
  function NewJob(tab: Tab, pp: Process, flags: set<Flag>, index: int, pid: int): Tab {
    tab[pp := Info(pp, flags, index, pid, pid)]
  }

  lemma NewJobFacts(procs: seq<Process>, tab: Tab, rings: Rings, maxindex: int,
                    pp: Process, flags: set<Flag>, index: int, pid: int)
    requires Sound(procs, tab, rings, maxindex) && pp !in tab && Orderly(flags)
    requires pid != 0 && forall p :: p in tab ==> tab[p].pid != pid
    requires index >= 1 && forall p :: p in tab && Leader(tab, p) ==> tab[p].index != index
    ensures Sound([pp] + procs, NewJob(tab, pp, flags, index, pid), rings[pp := [pp]], if index > maxindex then index else maxindex)
    ensures forall p :: p in tab ==> Leader(NewJob(tab, pp, flags, index, pid), p) == Leader(tab, p)
    ensures Leader(NewJob(tab, pp, flags, index, pid), pp)
  {
    hide AllRings, Listed, Pids, Indexed, States;
    var tab' := NewJob(tab, pp, flags, index, pid);
    NewJobRings(tab, rings, pp, flags, index, pid);
    NewJobIndex(tab, maxindex, pp, flags, index, pid);
    MoreListed(procs, tab, pp, tab');
    MorePids(tab, pp, tab');
    MoreStates(tab, pp, tab');
  }

  lemma NewJobRings(tab: Tab, rings: Rings, pp: Process, flags: set<Flag>, index: int, pid: int)
    requires AllRings(tab, rings) && pp !in tab && pid != 0 && index >= 1
    ensures AllRings(NewJob(tab, pp, flags, index, pid), rings[pp := [pp]])
  {
    var tab', rings' := NewJob(tab, pp, flags, index, pid), rings[pp := [pp]];
    forall p | p in tab' ensures RingOf(tab', rings', p) {
      if p == pp {
        var r := [pp];
        assert LinkedAt(tab', r, 0) && r[0] == pp;
        assert InJob(tab', pp, pp);
      } else {
        assert RingOf(tab, rings, p);
        SameRing(tab, tab', rings[p]);
      }
    }
  }

  lemma NewJobIndex(tab: Tab, maxindex: int, pp: Process, flags: set<Flag>, index: int, pid: int)
    requires Indexed(tab, maxindex) && pp !in tab && pid != 0
    requires index >= 1 && forall p :: p in tab && Leader(tab, p) ==> tab[p].index != index
    ensures Indexed(NewJob(tab, pp, flags, index, pid), if index > maxindex then index else maxindex)
  {
    var tab' := NewJob(tab, pp, flags, index, pid);
    assert Leader(tab', pp) && tab'[pp].index == index;
    if maxindex > 0 {
      var p :| p in tab && Leader(tab, p) && tab[p].index == maxindex;
      assert p in tab' && Leader(tab', p);
    }
  }

  lemma MorePids(tab: Tab, pp: Process, tab': Tab)
    requires Pids(tab) && pp !in tab && tab'.Keys == tab.Keys + {pp} && tab'[pp].pid != 0
    requires forall p :: p in tab ==> tab'[p].pid == tab[p].pid != tab'[pp].pid
    ensures Pids(tab')
  {
  }

  lemma MoreStates(tab: Tab, pp: Process, tab': Tab)
    requires States(tab) && pp !in tab && tab'.Keys == tab.Keys + {pp} && Orderly(tab'[pp].flags)
    requires forall p :: p in tab ==> tab'[p].flags == tab[p].flags
    ensures States(tab')
  {
    hide Orderly;
  }

  lemma MoreListed(procs: seq<Process>, tab: Tab, pp: Process, tab': Tab)
    requires Listed(procs, tab) && pp !in tab && tab'.Keys == tab.Keys + {pp}
    ensures Listed([pp] + procs, tab')
  {
    var l := [pp] + procs;
    forall i, j | 0 <= i < j < |l| ensures l[i] != l[j] {
      assert l[j] == procs[j - 1] && procs[j - 1] in procs;
      if i > 0 {
        assert l[i] == procs[i - 1];
      }
    }
    forall p | p in tab' ensures p in l {
      assert p == pp || p in procs;
    }
  }

  /** `pp` joins the job led by `job`, behind its last process. */
  function NewFriend(tab: Tab, pp: Process, flags: set<Flag>, pid: int, job: Process, last: Process): Tab
    requires job in tab && last in tab
  {
    tab[last := tab[last].(friends := pp)][pp := Info(job, flags, tab[job].index, pid, tab[job].pid)]
  }

  /** The rings after that. */
  function Grown(rings: Rings, r: seq<Process>, pp: Process): Rings {
    map p | p in rings.Keys + {pp} :: if p in r || p == pp then r + [pp] else rings[p]
  }

  lemma NewFriendFacts(procs: seq<Process>, tab: Tab, rings: Rings, maxindex: int,
                       pp: Process, flags: set<Flag>, pid: int, job: Process)
    requires Sound(procs, tab, rings, maxindex) && pp !in tab && Orderly(flags) && Leader(tab, job)
    requires pid != 0 && forall p :: p in tab ==> tab[p].pid != pid
    ensures job in rings && rings[job] != [] && rings[job][0] == job && rings[job][|rings[job]| - 1] in tab
    ensures var r := rings[job]; var tab' := NewFriend(tab, pp, flags, pid, job, r[|r| - 1]);
      && Sound([pp] + procs, tab', Grown(rings, r, pp), maxindex)
      && (forall p :: p in tab ==> Leader(tab', p) == Leader(tab, p)) && !Leader(tab', pp)
  {
    hide AllRings, Listed, Pids, Indexed, States;
    LeaderFirst(tab, rings, job);
    JobRing(tab, rings, job);
    var r := rings[job];
    var tab' := NewFriend(tab, pp, flags, pid, job, r[|r| - 1]);
    NewFriendRings(tab, rings, pp, flags, pid, job);
    MoreListed(procs, tab, pp, tab');
    MorePids(tab, pp, tab');
    MoreStates(tab, pp, tab');
    FriendIndexed(tab, tab', maxindex, pp);
  }

  lemma JobRing(tab: Tab, rings: Rings, job: Process)
    requires AllRings(tab, rings) && Leader(tab, job)
    ensures job in rings && rings[job] != [] && rings[job][0] == job && Linked(tab, rings[job]) && LiveRing(tab, rings[job])
    ensures rings[job][|rings[job]| - 1] in tab
  {
    LeaderFirst(tab, rings, job);
    assert RingOf(tab, rings, job);
    assert LinkedAt(tab, rings[job], |rings[job]| - 1);
  }

  lemma NewFriendRings(tab: Tab, rings: Rings, pp: Process, flags: set<Flag>, pid: int, job: Process)
    requires AllRings(tab, rings) && pp !in tab && Leader(tab, job)
    requires pid != 0 && forall p :: p in tab ==> tab[p].pid != pid
    requires job in rings && rings[job] != [] && rings[job][|rings[job]| - 1] in tab
    ensures var r := rings[job]; AllRings(NewFriend(tab, pp, flags, pid, job, r[|r| - 1]), Grown(rings, r, pp))
  {
    hide Linked, LiveRing, DeadRing;
    JobRing(tab, rings, job);
    assert RingOf(tab, rings, job);
    var r := rings[job];
    var tab', rings' := NewFriend(tab, pp, flags, pid, job, r[|r| - 1]), Grown(rings, r, pp);
    FriendRing(tab, r, pp, flags, pid);
    assert r[|r| - 1] in r;
    forall p | p in tab' ensures RingOf(tab', rings', p) {
      if p in r || p == pp {
        GrownRing(tab', rings, r, pp, p);
      } else {
        ApartRing(tab, rings, job, tab', rings', p);
      }
    }
  }

  /** The ring of another job stays. */
  lemma ApartRing(tab: Tab, rings: Rings, job: Process, tab': Tab, rings': Rings, p: Process)
    requires AllRings(tab, rings) && job in tab && p in tab && p !in rings[job]
    requires forall q :: q in tab && q !in rings[job] ==> q in tab' && tab'[q] == tab[q] && q in rings' && rings'[q] == rings[q]
    ensures RingOf(tab', rings', p)
  {
    hide Linked, LiveRing, DeadRing;
    assert RingOf(tab, rings, p);
    OtherRing(tab, rings, job, p);
    SameRing(tab, tab', rings[p]);
  }

  lemma GrownRing(tab: Tab, rings: Rings, r: seq<Process>, pp: Process, p: Process)
    requires Linked(tab, r + [pp]) && LiveRing(tab, r + [pp]) && (p in r || p == pp) && forall q :: q in r ==> q in rings
    ensures RingOf(tab, Grown(rings, r, pp), p)
  {
    hide Linked, LiveRing;
    assert forall q :: q in r + [pp] <==> q in r || q == pp;
  }

  /** The rings of other jobs have no process of this one. */
  lemma OtherRing(tab: Tab, rings: Rings, l: Process, p: Process)
    requires AllRings(tab, rings) && l in tab && p in tab && p !in rings[l]
    ensures forall q :: q in rings[p] ==> q !in rings[l]
  {
    assert RingOf(tab, rings, p) && RingOf(tab, rings, l);
    forall q | q in rings[p] ensures q !in rings[l] {
      assert rings[q] == rings[p];
    }
  }

  lemma FriendIndexed(tab: Tab, tab': Tab, maxindex: int, pp: Process)
    requires Indexed(tab, maxindex) && pp !in tab && tab'.Keys == tab.Keys + {pp} && !Leader(tab', pp)
    requires forall p :: p in tab ==> tab'[p] == tab[p].(friends := tab'[p].friends)
    ensures Indexed(tab', maxindex)
  {
  }

  lemma FriendRing(tab: Tab, r: seq<Process>, pp: Process, flags: set<Flag>, pid: int)
    requires Linked(tab, r) && LiveRing(tab, r) && pp !in tab && r[|r| - 1] in tab
    requires pid != 0 && forall p :: p in tab ==> tab[p].pid != pid
    ensures var tab' := NewFriend(tab, pp, flags, pid, r[0], r[|r| - 1]); Linked(tab', r + [pp]) && LiveRing(tab', r + [pp])
  {
    var tab', s := NewFriend(tab, pp, flags, pid, r[0], r[|r| - 1]), r + [pp];
    forall i | 0 <= i < |r| ensures r[i] in tab && r[i] != pp {
      assert LinkedAt(tab, r, i);
    }
    forall i | 0 <= i < |s| ensures LinkedAt(tab', s, i) {
      if i < |r| {
        assert LinkedAt(tab, r, i);
      }
    }
    forall p | p in s ensures InJob(tab', s[0], p) {
      if p != pp {
        assert p in r && InJob(tab, r[0], p);
      }
    }
  }

  // ------------------------------------------------------------- the sweep

  /** The processes that have not been flushed. */
  function Swept(procs: seq<Process>, tab: Tab): seq<Process> {
    if procs == [] then [] else (if procs[0] in tab && tab[procs[0]].pid != 0 then [procs[0]] else []) + Swept(procs[1..], tab)
  }

  lemma {:induction false} SweptMembers(procs: seq<Process>, tab: Tab)
    requires Distinct(procs)
    ensures Distinct(Swept(procs, tab))
    ensures forall p :: p in Swept(procs, tab) ==> p in procs && p in tab && tab[p].pid != 0
    ensures forall p :: p in procs && p in tab && tab[p].pid != 0 ==> p in Swept(procs, tab)
  {
    if procs != [] {
      var rest := procs[1..];
      SweptMembers(rest, tab);
      assert forall p :: p in procs <==> p == procs[0] || p in rest;
      assert procs[0] !in rest;
    }
  }

  function Kept(tab: Tab): Tab {
    map p | p in tab && tab[p].pid != 0 :: tab[p]
  }

  /** Freeing the processes that have been flushed frees whole jobs, and leaves
      every other job as it is. */
  lemma SweepFacts(procs: seq<Process>, tab: Tab, rings: Rings, maxindex: int)
    requires Sound(procs, tab, rings, maxindex)
    ensures Sound(Swept(procs, tab), Kept(tab), map p | p in rings && p in Kept(tab) :: rings[p], maxindex)
    ensures forall p :: p in tab ==> Leader(Kept(tab), p) == Leader(tab, p)
  {
    hide AllRings, Listed, Pids, Indexed, States;
    SweepList(procs, tab);
    SweepRings(tab, rings);
    SweepRest(tab, maxindex);
  }

  lemma SweepList(procs: seq<Process>, tab: Tab)
    requires Listed(procs, tab)
    ensures Listed(Swept(procs, tab), Kept(tab))
  {
    SweptMembers(procs, tab);
    forall p | p in Kept(tab) ensures p in Swept(procs, tab) {
      assert p in tab && p in procs;
    }
    forall p | p in Swept(procs, tab) ensures p in Kept(tab) {
      assert p in procs && p in tab && tab[p].pid != 0;
    }
  }

  lemma SweepRings(tab: Tab, rings: Rings)
    requires AllRings(tab, rings)
    ensures AllRings(Kept(tab), map p | p in rings && p in Kept(tab) :: rings[p])
  {
    hide Linked;
    var tab' := Kept(tab);
    var rings' := map p | p in rings && p in tab' :: rings[p];
    forall p | p in tab' ensures RingOf(tab', rings', p) {
      LeaderFirst(tab, rings, p);
      assert RingOf(tab, rings, p);
      forall q | q in rings[p] ensures q in tab' {
        assert InJob(tab, rings[p][0], q);
      }
      SameRing(tab, tab', rings[p]);
    }
  }

  lemma SweepRest(tab: Tab, maxindex: int)
    requires Pids(tab) && Indexed(tab, maxindex) && States(tab)
    ensures Pids(Kept(tab)) && Indexed(Kept(tab), maxindex) && States(Kept(tab))
  {
    hide Orderly;
    var tab' := Kept(tab);
    assert forall p :: p in tab ==> (Leader(tab', p) <==> Leader(tab, p));
  }

  /** What `wait3` reports about a process. */
  datatype Wait = StoppedBy(sig: int) | KilledBy(sig: int, core: bool) | Exit(code: int)

  const SIGINT := 2

  /** The state that a report puts a process into. */
  function StateOf(w: Wait): Flag {
    match w
    case StoppedBy(_) => Stopped
    case KilledBy(sig, _) => if sig == SIGINT then Interrupted else Signaled
    case Exit(code) => if code != 0 then AExited else NExited
  }

  // ---------------------------------------------------------------- flags

  /** The same state. */
  ghost predicate SameState(f: set<Flag>, f': set<Flag>) {
    f' * STATES == f * STATES && (Reported in f' <==> Reported in f)
  }

  lemma OrderlyStill(f: set<Flag>, f': set<Flag>)
    requires Orderly(f) && SameState(f, f')
    ensures Orderly(f')
  {
    assert Running in f' <==> Running in f' * STATES;
    assert Stopped in f' <==> Stopped in f' * STATES;
    assert Running in f <==> Running in f * STATES;
    assert Stopped in f <==> Stopped in f * STATES;
  }

  /** The flags after a report. */
  function ReportFlags(f: set<Flag>, w: Wait): set<Flag> {
    f - {Running, Stopped, Reported} + {StateOf(w)} + if w.KilledBy? && w.core then {Dumped} else {}
  }

  lemma OnlyState(f: set<Flag>, s: Flag)
    requires f * STATES == {s}
    ensures forall x :: x in f && x in STATES ==> x == s
  {
    forall x | x in f && x in STATES ensures x == s {
      assert x in f * STATES;
    }
  }

  /** A process that has not ended gets exactly the reported state. */
  lemma ReportState(f: set<Flag>, w: Wait)
    requires Orderly(f) && f * {Running, Stopped} != {}
    ensures Orderly(ReportFlags(f, w)) && ReportFlags(f, w) * STATES == {StateOf(w)} && Reported !in ReportFlags(f, w)
  {
    var s :| s in STATES && f * STATES == {s};
    var t :| t in f * {Running, Stopped};
    assert t in f * STATES && t == s;
    OnlyState(f, s);
    assert ReportFlags(f, w) * STATES == {StateOf(w)};
  }

  /** What a job gets when it is started again. */
  function StartFlags(f: set<Flag>, foregnd: bool): set<Flag> {
    if f * {Running, Stopped} == {} then f
    else if foregnd then f + {Running} - {Stopped} + {Foregnd} else f + {Running} - {Stopped} - {Foregnd}
  }

  /** A process that has not ended runs, in the foreground or not; one that has stays as it is. */
  ghost predicate StartMeans(f: set<Flag>, g: set<Flag>, foregnd: bool) {
    if Running in f || Stopped in f then
      && Running in g && Stopped !in g && (Foregnd in g <==> foregnd)
      && forall x :: x !in {Running, Stopped, Foregnd} ==> (x in g <==> x in f)
    else g == f
  }

  lemma StartIs(f: set<Flag>, foregnd: bool)
    ensures StartMeans(f, StartFlags(f, foregnd), foregnd)
  {
    assert Running in f ==> Running in f * {Running, Stopped};
    assert Stopped in f ==> Stopped in f * {Running, Stopped};
  }

  lemma StartState(f: set<Flag>, foregnd: bool)
    requires Orderly(f)
    ensures Orderly(StartFlags(f, foregnd))
    ensures StartFlags(f, foregnd) * STATES == if f * {Running, Stopped} != {} then {Running} else f * STATES
  {
    if f * {Running, Stopped} != {} {
      var s :| s in STATES && f * STATES == {s};
      var t :| t in f * {Running, Stopped};
      assert t in f * STATES && t == s;
      OnlyState(f, s);
      assert StartFlags(f, foregnd) * STATES == {Running};
    }
  }

  // -------------------------------------------------------- rings, walked

  /** The ring from its place `i` on. */
  function From(r: seq<Process>, i: nat): (s: seq<Process>)
    requires i < |r|
    ensures |s| == |r| && s[0] == r[i]
  {
    r[i..] + r[..i]
  }

  lemma FromFacts(tab: Tab, r: seq<Process>, i: nat)
    requires Linked(tab, r) && i < |r|
    ensures Linked(tab, From(r, i))
    ensures forall p :: p in From(r, i) ==> p in r
    ensures forall p :: p in r ==> p in From(r, i)
  {
    var s, n := From(r, i), |r|;
    forall k | 0 <= k < n ensures s[k] == r[if k < n - i then i + k else k - (n - i)] {
    }
    forall k | 0 <= k < n ensures LinkedAt(tab, s, k) {
      assert LinkedAt(tab, r, if k < n - i then i + k else k - (n - i));
    }
    forall p | p in r ensures p in s {
      var j :| 0 <= j < n && r[j] == p;
      assert s[if j >= i then j - i else j + n - i] == p;
    }
  }

  /** The flags of some processes changed. */
  ghost function Updated(tab: Tab, r: seq<Process>, f: (Process, set<Flag>) -> set<Flag>): Tab {
    map p | p in tab :: if p in r then tab[p].(flags := f(p, tab[p].flags)) else tab[p]
  }

  lemma UpdatedMore(tab: Tab, s: seq<Process>, k: nat, f: (Process, set<Flag>) -> set<Flag>)
    requires Distinct(s) && k < |s| && s[k] in tab
    ensures Updated(tab, s[..k + 1], f) == Updated(tab, s[..k], f)[s[k] := tab[s[k]].(flags := f(s[k], tab[s[k]].flags))]
    ensures s[k] in Updated(tab, s[..k], f) && Updated(tab, s[..k], f)[s[k]] == tab[s[k]]
  {
    assert s[..k + 1] == s[..k] + [s[k]];
    assert s[k] !in s[..k];
  }

  /** All flags of a job together. */
  ghost function JobFlags(tab: Tab, r: seq<Process>): set<Flag> {
    set p, x | p in r && p in tab && x in tab[p].flags :: x
  }

  // ------------------------------------------------------------- the shell

  /** What happens to the table. */
  datatype Event =
    | Fork(pid: int, background: bool, timed: bool, piped: bool, both: bool)
    | EndJob
    | Child(pid: int, w: Wait, slow: bool, notify: bool)
    | Start(index: int, foregnd: bool)
    | FlushJob(index: int)
    | FlushAll
    | Free

  class JobTable {
    const proclist: Process     // the head of the list
    var pcurrjob: Process?
    var pcurrent: Process?
    var pprevious: Process?
    var pmaxindex: int
    var neednote: nat

    ghost var procs: seq<Process>   // the processes of the list, in its order
    ghost var tab: Tab
    ghost var rings: Rings

    /** The structures hold what the table says, and the list runs through them. */
    ghost predicate Held()
      reads this`procs, this`tab, proclist, procs
    {
      && Chain(procs)
      && (forall p :: p in procs ==> Holds(p))
      && (forall p :: p in tab ==> p in procs)
    }

    /** The list runs through `l`. */
    ghost predicate Chain(l: seq<Process>)
      reads proclist`next, l`next
    {
      && proclist !in l && Distinct(l)
      && proclist.next == (if l == [] then null else l[0])
      && (forall i :: 0 <= i < |l| ==> Follows(l, i))
    }

    ghost predicate Follows(l: seq<Process>, i: nat)
      requires i < |l|
      reads l`next
    {
      l[i].next == if i + 1 < |l| then l[i + 1] else null
    }

    ghost predicate Holds(p: Process)
      reads this`tab, p`friends, p`flags, p`index, p`pid, p`jobid
    {
      p in tab && tab[p] == Info(p.friends, p.flags, p.index, p.pid, p.jobid)
    }

    /** Everything but the pointers to jobs. */
    ghost predicate Core()
      reads this`procs, this`tab, this`rings, this`pmaxindex, proclist, procs
    {
      Held() && Sound(procs, tab, rings, pmaxindex)
    }

    /** Every job is one ring with one leader, the jobs have different indices up
        to `pmaxindex`, every process is in one state, and the current and the
        previous job are different jobs. */
    ghost predicate Valid()
      reads this, proclist, procs
    {
      Core() && Current(tab, pcurrent, pprevious) && (pcurrjob != null ==> Leader(tab, pcurrjob))
    }

    constructor ()
      ensures Valid() && procs == [] && fresh(proclist) && pcurrjob == null && pcurrent == null && pmaxindex == 0
    {
      proclist := new Process(0, {});
      pcurrjob, pcurrent, pprevious, pmaxindex, neednote := null, null, null, 0, 0;
      procs, tab, rings := [], map[], map[];
    }

    /** The process at place `k` of the list, or null behind its end. */
    ghost function Nth(k: nat): Process?
      reads this`procs
    {
      if k < |procs| then procs[k] else null
    }

    lemma HeldAt(p: Process)
      requires Held() && p in procs
      ensures p in tab && tab[p] == Info(p.friends, p.flags, p.index, p.pid, p.jobid)
    {
      assert Holds(p);
    }

    /** The walk through the list comes to its next place. */
    lemma NextAt(k: nat)
      requires Held() && k < |procs|
      ensures procs[k].next == Nth(k + 1) && procs[k] in procs
    {
      assert Follows(procs, k);
    }

    lemma FirstAt()
      requires Held()
      ensures proclist.next == Nth(0)
    {
    }

    lemma InTable(p: Process)
      requires Held() && p in tab
      ensures p in procs
    {
    }

    /** `pgetcurr(pp)` */
    method Pgetcurr(pp: Process) returns (r: Process?)
      requires Held()
      ensures r == MostRecent(procs, tab, pcurrent, pp)
    {
      hide Held;
      FirstAt();
      var np := proclist.next;
      var xp: Process? := null;
      ghost var k: nat := 0;
      while np != null
        invariant k <= |procs| && np == Nth(k)
        invariant FirstJob(procs, tab, pcurrent, pp, true) == FirstJob(procs[k..], tab, pcurrent, pp, true)
        invariant xp == null ==> FirstJob(procs, tab, pcurrent, pp, false) == FirstJob(procs[k..], tab, pcurrent, pp, false)
        invariant xp != null ==> FirstJob(procs, tab, pcurrent, pp, false) == xp
        decreases |procs| - k
      {
        NextAt(k);
        HeldAt(np);
        assert procs[k..][0] == np && procs[k..][1..] == procs[k + 1..];
        if np != pcurrent && np != pp && np.pid != 0 && np.pid == np.jobid {
          if Stopped in np.flags {
            return np;
          }
          if xp == null {
            xp := np;
          }
        }
        np := np.next;
        k := k + 1;
      }
      return xp;
    }

    /** `pclrcurr(pp)` */
    method Pclrcurr(pp: Process)
      requires Held()
      modifies this`pcurrent, this`pprevious
      ensures (pcurrent, pprevious) == Cleared(procs, tab, old(pcurrent), old(pprevious), pp)
    {
      if pp == pcurrent {
        if pprevious != null {
          pcurrent := pprevious;
          pprevious := Pgetcurr(pp);
        } else {
          pcurrent := Pgetcurr(pp);
          pprevious := Pgetcurr(pp);
        }
      } else if pp == pprevious {
        pprevious := Pgetcurr(pp);
      }
    }

    /** `while (pp->p_pid != pp->p_jobid) pp = pp->p_friends` */
    method Leading(pp: Process) returns (l: Process)
      requires Core() && pp in tab && tab[pp].pid != 0
      ensures l == rings[pp][0] && Leader(tab, l) && rings[l] == rings[pp]
    {
      l := pp;
      LeaderFirst(tab, rings, pp);
      assert RingOf(tab, rings, pp);
      ghost var r := rings[pp];
      ghost var k :| 0 <= k < |r| && r[k] == pp;
      while l.pid != l.jobid
        invariant l in r && ((k < |r| && l == r[k]) || (k == |r| && l == r[0]))
        decreases |r| - k
      {
        LeaderFirst(tab, rings, l);
        assert Holds(l) && k < |r| && LinkedAt(tab, r, k);
        l := l.friends;
        k := k + 1;
      }
      LeaderFirst(tab, rings, l);
      assert Holds(l);
    }

    /** The fields of a process that change. */
    method Put(p: Process, flags: set<Flag>, index: int, pid: int)
      requires Held() && p in procs
      modifies this`tab, p`flags, p`index, p`pid
      ensures Held() && p in old(tab) && tab == old(tab)[p := old(tab)[p].(flags := flags, index := index, pid := pid)]
    {
      assert Holds(p);
      p.flags, p.index, p.pid := flags, index, pid;
      ghost var tab0 := tab;
      tab := tab[p := tab[p].(flags := flags, index := index, pid := pid)];
      forall q | q in procs ensures Holds(q) {
        assert old(Holds(q));
      }
      forall i | 0 <= i < |procs| ensures Follows(procs, i) {
        assert old(Follows(procs, i));
      }
    }

    /** `pflush(pp)`: every process of the job is marked as flushed, no pointer
        is left at the job, and the largest index is found again. */
    method Pflush(pp: Process)
      requires Valid() && pp in procs && tab[pp].pid != 0
      modifies this`tab, this`pcurrjob, this`pcurrent, this`pprevious, this`pmaxindex, procs`flags, procs`index, procs`pid
      ensures Valid() && procs == old(procs) && rings == old(rings) && tab == Flushed(old(tab), old(rings)[pp])
      ensures (pcurrent, pprevious) == Cleared(old(procs), old(tab), old(pcurrent), old(pprevious), old(rings)[pp][0])
      ensures pcurrjob == if old(pcurrjob) == old(rings)[pp][0] then null else old(pcurrjob)
    {
      hide Held, AllRings, Linked, LiveRing, Listed, Pids, Indexed, States, Flushed, Cleared, MaxIndex, Leader;
      HeldAt(pp);
      var l := Leading(pp);
      ghost var tab0 := tab;
      ClearedFacts(procs, tab, pcurrent, pprevious, l);
      Pclrcurr(l);
      if l == pcurrjob {
        pcurrjob := null;
      }
      LeaderIn(tab, l);
      InTable(l);
      HeldAt(l);
      var index := l.index;
      Zero(l);
      FlushAllRings(tab0, rings, l);
      FlushLeaders(tab0, rings, l);
      if index == pmaxindex {
        pmaxindex := Largest();
      } else {
        SameMax(tab0, rings, l, pmaxindex);
      }
      FlushFacts(procs, tab0, rings, old(pmaxindex), l, pmaxindex);
      StillLeaders(tab0, tab, l, pcurrent, pprevious, pcurrjob);
    }

    /** The loop of `pflush` over the ring of a leader. */
    method Zero(l: Process)
      requires Core() && Leader(tab, l)
      modifies this`tab, procs`flags, procs`index, procs`pid
      ensures Held() && tab == Flushed(old(tab), rings[l])
    {
      hide Held, AllRings, Linked, LiveRing, Listed, Pids, Indexed, States, Flushed;
      JobRing(tab, rings, l);
      ghost var r, k: nat := rings[l], 0;
      var np := l;
      NoneFlushed(tab, r);
      while true
        invariant k < |r| && np == r[k] && Held() && tab == Flushed(old(tab), r[..k])
        decreases |r| - k
      {
        RingAt(old(tab), r, k);
        FlushedMore(old(tab), r, k);
        InTable(np);
        HeldAt(np);
        Put(np, np.flags - {NeedNote}, 0, 0);
        HeldAt(np);
        np := np.friends;
        k := k + 1;
        if np == l {
          break;
        }
      }
      assert r[..k] == r;
    }

    lemma AllSeen(m: int)
      requires Held() && forall i :: 0 <= i < |procs| ==> procs[i] in tab && tab[procs[i]].index <= m
      ensures forall p :: p in tab ==> tab[p].index <= m
    {
      forall p | p in tab ensures tab[p].index <= m {
        assert p in procs;
      }
    }

    /** The largest index in the list. */
    method Largest() returns (index: int)
      requires Held() && AllRings(tab, rings)
      ensures MaxIndex(tab, index)
    {
      hide Held, AllRings;
      FirstAt();
      var np := proclist.next;
      ghost var k: nat := 0;
      index := 0;
      while np != null
        invariant k <= |procs| && np == Nth(k) && index >= 0
        invariant forall i :: 0 <= i < k ==> procs[i] in tab && tab[procs[i]].index <= index
        invariant index == 0 || exists p :: p in tab && tab[p].index == index
        decreases |procs| - k
      {
        NextAt(k);
        HeldAt(np);
        if np.index > index {
          index := np.index;
        }
        np := np.next;
        k := k + 1;
      }
      AllSeen(index);
      LargestIndex(tab, rings, index);
    }

    // --------------------------------------------------------------- forking

    /** A process structure is put in front of the list. */
    method Link(pp: Process)
      requires Held() && pp !in procs && pp != proclist
      modifies this`procs, this`tab, proclist`next, pp`next
      ensures Held() && procs == [pp] + old(procs)
      ensures tab == old(tab)[pp := Info(pp.friends, pp.flags, pp.index, pp.pid, pp.jobid)]
    {
      ghost var was := procs;
      pp.next := proclist.next;
      proclist.next := pp;
      tab := tab[pp := Info(pp.friends, pp.flags, pp.index, pp.pid, pp.jobid)];
      procs := [pp] + procs;
      Longer(pp, was);
      forall i | 0 <= i < |procs| ensures Follows(procs, i) {
        if i > 0 {
          assert procs[i] == was[i - 1] && old(Follows(was, i - 1));
        }
      }
      forall p | p in procs ensures Holds(p) {
        if p != pp {
          assert p in was && old(Holds(p));
        }
      }
    }

    /** `for (fp = pcurrjob; fp->p_friends != pcurrjob; fp = fp->p_friends)` */
    method LastFriend(job: Process) returns (fp: Process)
      requires Core() && Leader(tab, job)
      ensures job in rings && rings[job] != [] && fp == rings[job][|rings[job]| - 1] && fp in tab && fp in procs
    {
      hide Held, AllRings, Linked, LiveRing, Listed, Pids, Indexed, States;
      JobRing(tab, rings, job);
      ghost var r, k: nat := rings[job], 0;
      fp := job;
      RingAt(tab, r, 0);
      InTable(fp);
      HeldAt(fp);
      while fp.friends != job
        invariant k < |r| && fp == r[k] && fp in procs && fp in tab && fp.friends == tab[fp].friends
        decreases |r| - k
      {
        RingAt(tab, r, k);
        fp := fp.friends;
        k := k + 1;
        RingAt(tab, r, k);
        InTable(fp);
        HeldAt(fp);
      }
      RingAt(tab, r, k);
      AtEnd(r, k);
    }

    lemma AtEnd(r: seq<Process>, k: nat)
      requires Distinct(r) && k < |r| && (k + 1 < |r| ==> r[k + 1] == r[0])
      ensures k == |r| - 1
    {
    }

    /** The smallest index that no process of the list has. */
    method FreeIndex() returns (i: int)
      requires Core()
      ensures i >= 1 && !HasIndex(tab, i) && forall j :: 1 <= j < i ==> HasIndex(tab, j)
    {
      hide Held, AllRings, Listed, Pids, Indexed, States;
      AtMostMax();
      i := 1;
      while true
        invariant i >= 1 && forall j :: 1 <= j < i ==> HasIndex(tab, j)
        decreases pmaxindex + 1 - i
      {
        var used := IndexUsed(i);
        if !used {
          return;
        }
        i := i + 1;
      }
    }

    lemma AtMostMax()
      requires Core()
      ensures forall i :: HasIndex(tab, i) ==> i <= pmaxindex && pmaxindex >= 0
    {
      hide Held, Listed, Pids, States;
      forall p | p in tab ensures tab[p].index <= pmaxindex {
        IndexOfJob(tab, rings, pmaxindex, p);
      }
    }

    method IndexUsed(i: int) returns (used: bool)
      requires Held()
      ensures used <==> HasIndex(tab, i)
    {
      hide Held;
      FirstAt();
      var np := proclist.next;
      ghost var k: nat := 0;
      while np != null
        invariant k <= |procs| && np == Nth(k)
        invariant forall x :: 0 <= x < k ==> procs[x] in tab && tab[procs[x]].index != i
        decreases |procs| - k
      {
        NextAt(k);
        HeldAt(np);
        if np.index == i {
          return true;
        }
        np := np.next;
        k := k + 1;
      }
      NoneUsed(i);
      used := false;
    }

    lemma NoneUsed(i: int)
      requires Held() && forall x :: 0 <= x < |procs| ==> procs[x] in tab && tab[procs[x]].index != i
      ensures !HasIndex(tab, i)
    {
      forall p | p in tab ensures tab[p].index != i {
        assert p in procs;
      }
    }

    /** `palloc(pid, t)`: a process joins the job that is being started, or
        starts one, which gets an index of its own and becomes the current or
        the previous job if there is none. */
    method Palloc(pid: int, background: bool, timed: bool, piped: bool, both: bool) returns (pp: Process)
      requires Valid() && pid != 0 && forall p :: p in tab ==> tab[p].pid != pid
      modifies this, proclist, procs
      ensures Valid() && fresh(pp) && procs == [pp] + old(procs)
      ensures pcurrjob == if old(pcurrjob) == null then pp else old(pcurrjob)
      ensures old(pcurrjob) == null ==> Started(old(tab), old(pmaxindex), tab, pmaxindex, pp, pid, FirstFlags(background, timed, piped, both))
      ensures old(pcurrjob) != null ==> Joined(old(tab), old(rings), tab, pcurrjob, pp, pid, FirstFlags(background, timed, piped, both))
      ensures old(pcurrjob) != null ==> pmaxindex == old(pmaxindex)
      ensures pcurrent == if old(pcurrent) == null && old(pcurrjob) == null then pp else old(pcurrent)
      ensures pprevious == if old(pcurrent) != null && old(pprevious) == null && old(pcurrjob) == null then pp else old(pprevious)
    {
      hide Held, Sound, Current, Started, Joined, Orderly, FirstFlags, Leader;
      pp := new Process(pid, FirstFlags(background, timed, piped, both));
      if pcurrjob != null {
        Join(pp);
      } else {
        Lead(pp);
      }
    }

    /** `pp` joins the job that is being started. */
    method Join(pp: Process)
      requires Valid() && pcurrjob != null && pp !in procs && pp != proclist && Orderly(pp.flags)
      requires pp.pid != 0 && forall p :: p in tab ==> tab[p].pid != pp.pid
      modifies this`procs, this`tab, this`rings, proclist`next, pp, procs
      ensures Valid() && procs == [pp] + old(procs)
      ensures Joined(old(tab), old(rings), tab, pcurrjob, pp, old(pp.pid), old(pp.flags))
    {
      hide Held, AllRings, Linked, LiveRing, Listed, Pids, Indexed, States, Orderly, Current, Leader, Grown, NewFriend, Chain;
      NotInTable(pp);
      LeaderIn(tab, pcurrjob);
      InTable(pcurrjob);
      HeldAt(pcurrjob);
      NewFriendFacts(procs, tab, rings, pmaxindex, pp, pp.flags, pp.pid, pcurrjob);
      ghost var tab0, rings0 := tab, rings;
      pp.index := pcurrjob.index;
      pp.friends := pcurrjob;
      pp.jobid := pcurrjob.pid;
      var fp := LastFriend(pcurrjob);
      rings := Grown(rings, rings[pcurrjob], pp);
      Befriend(fp, pp);
      Link(pp);
      FriendTab(tab0, rings0, tab, pcurrjob, fp, pp, pp.flags, pp.pid);
      StillLeaders(tab0, tab, null, pcurrent, pprevious, pcurrjob);
    }

    method Befriend(p: Process, q: Process)
      requires Held() && p in procs
      modifies this`tab, p`friends
      ensures Held() && p in old(tab) && tab == old(tab)[p := old(tab)[p].(friends := q)]
    {
      assert Holds(p);
      p.friends := q;
      tab := tab[p := tab[p].(friends := q)];
      forall x | x in procs ensures Holds(x) {
        assert old(Holds(x));
      }
    }

    lemma NotInTable(pp: Process)
      requires Held() && pp !in procs
      ensures pp !in tab
    {
    }

    /** `pp` starts a job. */
    method Lead(pp: Process)
      requires Valid() && pcurrjob == null && pp !in procs && pp != proclist && Orderly(pp.flags)
      requires pp.pid != 0 && forall p :: p in tab ==> tab[p].pid != pp.pid
      modifies this, proclist`next, pp
      ensures Valid() && procs == [pp] + old(procs) && pcurrjob == pp
      ensures Started(old(tab), old(pmaxindex), tab, pmaxindex, pp, old(pp.pid), old(pp.flags))
      ensures pcurrent == if old(pcurrent) == null then pp else old(pcurrent)
      ensures pprevious == if old(pcurrent) != null && old(pprevious) == null then pp else old(pprevious)
    {
      hide Held, AllRings, Listed, Pids, Indexed, States, Orderly, HasIndex, Current;
      NotInTable(pp);
      ghost var tab0, max0 := tab, pmaxindex;
      var i := ChooseIndex();
      pcurrjob := pp;
      pp.jobid := pp.pid;
      pp.friends := pp;
      pp.index := i;
      NewIndex(procs, tab, rings, max0, pp, pp.flags, i, pp.pid);
      NewPointers(tab, NewJob(tab, pp, pp.flags, i, pp.pid), pp, pcurrent, pprevious);
      if pcurrent == null {
        pcurrent := pp;
      } else if pprevious == null {
        pprevious := pp;
      }
      rings := rings[pp := [pp]];
      Link(pp);
    }

    /** The index of a new job. */
    method ChooseIndex() returns (i: int)
      requires Core()
      modifies this`pmaxindex
      ensures i >= 1 && !HasIndex(tab, i) && pmaxindex == (if i > old(pmaxindex) then i else old(pmaxindex))
      ensures old(pmaxindex) < BIGINDEX ==> i == old(pmaxindex) + 1
      ensures old(pmaxindex) >= BIGINDEX ==> forall j :: 1 <= j < i ==> HasIndex(tab, j)
    {
      hide Held, AllRings, Listed, Pids, Indexed, States, HasIndex;
      AtMostMax();
      MaxNotNegative();
      if pmaxindex < BIGINDEX {
        pmaxindex := pmaxindex + 1;
        i := pmaxindex;
      } else {
        i := FreeIndex();
        if i > pmaxindex {
          pmaxindex := i;
        }
      }
    }

    lemma MaxNotNegative()
      requires Core()
      ensures pmaxindex >= 0
    {
    }

    /** The loop of `pwait` that frees what has been flushed: what is left of the
        list, and of every job that has not been flushed, stays as it is, and no
        pointer of the table leads to what has been freed. */
    method Sweep()
      requires Valid()
      modifies this`procs, this`tab, this`rings, proclist`next, procs`next
      ensures Valid() && procs == Swept(old(procs), old(tab)) && tab == Kept(old(tab))
      ensures forall p :: p in tab ==> p in rings && rings[p] == old(rings)[p]
    {
      hide Sound, Swept, Current, Leader, Chain, Kept;
      SweepFacts(procs, tab, rings, pmaxindex);
      StillLeaders(tab, Kept(tab), null, pcurrent, pprevious, pcurrjob);
      ghost var kept := Unlinking();
      SweepKeeps(kept);
      rings := map p | p in rings && p in Kept(tab) :: rings[p];
      procs, tab := kept, Kept(tab);
    }

    /** What is left of the table. */
    lemma SweepKeeps(kept: seq<Process>)
      requires Sound(procs, tab, rings, pmaxindex) && kept == Swept(procs, tab) && forall p :: p in procs ==> Holds(p)
      ensures forall p :: p in kept ==> p in Kept(tab) && Kept(tab)[p] == Info(p.friends, p.flags, p.index, p.pid, p.jobid)
      ensures forall p :: p in Kept(tab) ==> p in kept && p in rings
    {
      hide LiveRing, DeadRing, Linked, Leader;
      SweptMembers(procs, tab);
      forall p | p in kept ensures p in Kept(tab) && Kept(tab)[p] == Info(p.friends, p.flags, p.index, p.pid, p.jobid) {
        assert p in procs && Holds(p);
      }
      forall p | p in Kept(tab) ensures p in kept {
        assert p in tab && p in procs;
      }
    }

    /** Takes the processes that have been flushed out of the list. */
    method Unlinking() returns (ghost kept: seq<Process>)
      requires Held()
      modifies proclist`next, procs`next
      ensures kept == Swept(procs, tab) && Chain(kept)
      ensures forall p :: p in procs ==> Holds(p)
    {
      hide Swept, Chain;
      FirstAt();
      ghost var k: nat := 0;
      var fp, pp := proclist, proclist.next;
      kept := [];
      assert procs[..0] == [] && [] + procs[0..] == procs;
      SweptNone(tab);
      while pp != null
        invariant k <= |procs| && kept == Swept(procs[..k], tab) && pp == Nth(k)
        invariant Chain(kept + procs[k..]) == true && fp == (if kept == [] then proclist else kept[|kept| - 1])
        invariant forall p :: p in procs ==> Holds(p)
        invariant fp == proclist || fp in procs
        modifies proclist`next, procs`next
        decreases |procs| - k
      {
        SweptMore(procs, k, tab);
        assert Holds(pp);
        ghost var rest := procs[k + 1..];
        assert procs[k..] == [pp] + rest;
        Middle(kept, pp, rest);
        if pp.pid == 0 {
          TakeOut(fp, pp, kept, rest);
          pp := fp;
        } else {
          kept := kept + [pp];
        }
        assert rest == [] || rest[0] == procs[k + 1];
        fp := pp;
        pp := fp.next;
        k := k + 1;
      }
      assert procs[..k] == procs && kept + procs[k..] == kept;
    }

    lemma Middle(a: seq<Process>, p: Process, b: seq<Process>)
      requires Chain(a + ([p] + b))
      ensures p.next == (if b == [] then null else b[0]) && p != proclist && Chain((a + [p]) + b)
    {
      var l := a + ([p] + b);
      assert (a + [p]) + b == l && l[|a|] == p && Follows(l, |a|);
      assert b != [] ==> l[|a| + 1] == b[0];
    }

    /** `fp->p_next = pp->p_next` */
    method TakeOut(fp: Process, pp: Process, ghost a: seq<Process>, ghost b: seq<Process>)
      requires Chain(a + ([pp] + b)) && fp == (if a == [] then proclist else a[|a| - 1])
      modifies fp`next
      ensures Chain(a + b) && fp.next == (if b == [] then null else b[0])
    {
      ghost var l, m := a + ([pp] + b), a + b;
      Middle(a, pp, b);
      fp.next := pp.next;
      Without(a, pp, b);
      assert a != [] ==> fp == l[|a| - 1];
      forall i | 0 <= i < |m| ensures Follows(m, i) {
        var j := if i < |a| then i else i + 1;
        assert m[i] == l[j] && l[j] in l && old(Follows(l, j));
        assert i + 1 != |a| ==> l[j] != fp;
      }
    }

    // ---------------------------------------------------------------- flags

    method Mark(p: Process, flags: set<Flag>)
      requires Held() && p in procs
      modifies this`tab, p`flags
      ensures Held() && p in old(tab) && tab == old(tab)[p := old(tab)[p].(flags := flags)]
    {
      assert Holds(p);
      p.flags := flags;
      tab := tab[p := tab[p].(flags := flags)];
      forall q | q in procs ensures Holds(q) {
        assert old(Holds(q));
      }
    }

    method SetFlags(p: Process, flags: set<Flag>)
      requires Core() && p in tab && Orderly(flags)
      modifies this`tab, p`flags
      ensures Core() && p in old(tab) && tab == old(tab)[p := old(tab)[p].(flags := flags)]
    {
      hide Sound, Orderly;
      InTable(p);
      HeldAt(p);
      ghost var tab0 := tab;
      Mark(p, flags);
      OneFlags(procs, tab0, rings, pmaxindex, p, flags);
    }

    /** `do { ... } while ((fp = fp->p_friends) != pp)`, where the flags of each
        process change and those of all are gathered. */
    method Around(pp: Process, f: (Process, set<Flag>) -> set<Flag>) returns (jobflags: set<Flag>)
      requires Core() && pp in tab && pp in rings
      requires forall p :: p in rings[pp] && p in tab ==> Orderly(f(p, tab[p].flags))
      modifies this`tab, procs`flags
      ensures Core() && tab == Updated(old(tab), rings[pp], f) && jobflags == JobFlags(tab, rings[pp])
    {
      hide Held, Sound, Orderly, Updated, JobFlags;
      ghost var tab0 := tab;
      ghost var s := RingFrom(pp);
      ghost var k: nat := 0;
      var fp := pp;
      jobflags := {};
      NoneUpdated(tab, s, f);
      while true
        invariant k < |s| && fp == s[k] && Held() && tab == Updated(tab0, s[..k], f) && jobflags == JobFlags(tab, s[..k])
        decreases |s| - k
      {
        RingAt(tab0, s, k);
        UpdatedMore(tab0, s, k, f);
        UpdatedFlags(tab0, s, k, f);
        InTable(fp);
        HeldAt(fp);
        Mark(fp, f(fp, fp.flags));
        HeldAt(fp);
        jobflags := jobflags + fp.flags;
        fp := fp.friends;
        k := k + 1;
        if fp == pp {
          break;
        }
      }
      assert s[..k] == s;
      SameMembers(tab0, s, rings[pp], f);
      UpdatedSound(procs, tab0, rings, pmaxindex, pp, f);
    }

    /** The ring of a process, from the process on. */
    lemma RingFrom(pp: Process) returns (s: seq<Process>)
      requires Core() && pp in tab && pp in rings
      ensures Linked(tab, s) && s[0] == pp && (forall p :: p in s <==> p in rings[pp])
    {
      assert RingOf(tab, rings, pp);
      var i :| 0 <= i < |rings[pp]| && rings[pp][i] == pp;
      FromFacts(tab, rings[pp], i);
      s := From(rings[pp], i);
    }

    /** The process with this number that has not been flushed. */
    method Find(pid: int) returns (pp: Process?)
      requires Held() && pid != 0
      ensures pp != null ==> pp in procs && pp in tab && tab[pp].pid == pid
      ensures pp == null ==> forall p :: p in tab ==> tab[p].pid != pid
    {
      hide Held;
      FirstAt();
      pp := proclist.next;
      ghost var k: nat := 0;
      while pp != null
        invariant k <= |procs| && pp == Nth(k)
        invariant forall x :: 0 <= x < k ==> procs[x] in tab && tab[procs[x]].pid != pid
        decreases |procs| - k
      {
        NextAt(k);
        HeldAt(pp);
        if pp.pid == pid {
          return;
        }
        pp := pp.next;
        k := k + 1;
      }
      NoneFound(pid);
    }

    lemma NoneFound(pid: int)
      requires Held() && forall x :: 0 <= x < |procs| ==> procs[x] in tab && tab[procs[x]].pid != pid
      ensures forall p :: p in tab ==> tab[p].pid != pid
    {
      forall p | p in tab ensures tab[p].pid != pid {
        assert p in procs;
      }
    }

    /** `pstart(pp, foregnd)`: every process of the job that has not ended runs
        again; a job that goes on in the background is neither the current nor
        the previous one. */
    method Pstart(pp: Process, foregnd: bool)
      requires Valid() && Leader(tab, pp)
      modifies this`tab, this`pcurrent, this`pprevious, procs`flags
      ensures Valid() && pp in rings && tab == Updated(old(tab), rings[pp], (p: Process, f: set<Flag>) => StartFlags(f, foregnd))
      ensures forall p :: p in rings[pp] && p in old(tab) ==> p in tab && StartMeans(old(tab)[p].flags, tab[p].flags, foregnd)
      ensures (pcurrent, pprevious) ==
        if foregnd then (old(pcurrent), old(pprevious)) else Cleared(procs, tab, old(pcurrent), old(pprevious), pp)
    {
      hide Held, Sound, Orderly, Updated, JobFlags, StartFlags;
      var f := (p: Process, f: set<Flag>) => StartFlags(f, foregnd);
      ghost var tab0 := tab;
      StartOrderly(procs, tab, rings, pmaxindex, pp, foregnd);
      var jobflags := Around(pp, f);
      UpdatedIs(tab0, rings[pp], f);
      forall p | p in rings[pp] && p in tab0 ensures StartMeans(tab0[p].flags, tab[p].flags, foregnd) {
        StartIs(tab0[p].flags, foregnd);
      }
      UpdatedLeaders(tab0, rings[pp], f);
      StillLeaders(tab0, tab, null, pcurrent, pprevious, pcurrjob);
      SoundListed(procs, tab, rings, pmaxindex);
      ClearedFacts(procs, tab, pcurrent, pprevious, pp);
      if !foregnd {
        Pclrcurr(pp);
      }
    }

    // ----------------------------------------------------------- SIGCHLD

    /** The part of `pchild` that stores what has been reported, and gathers the flags of the job. */
    method TakeNote(found: Process, w: Wait, slow: Process -> bool) returns (jobflags: set<Flag>)
      requires Valid() && found in procs && found in tab && tab[found].pid != 0 && tab[found].flags * {Running, Stopped} != {}
      modifies this`tab, procs`flags, found`reason
      ensures Valid() && found in rings && rings[found] != [] && found.reason == Reason(w)
      ensures found in old(tab) && found in tab && tab[found].pid == old(tab)[found].pid
      ensures Noted(old(tab), tab, rings[found], found, w) && Agree(old(tab), tab, rings[found], jobflags)
      ensures BeforeAll(old(tab), tab, rings[found], found, w, slow)
    {
      hide Held, Sound, Orderly, Updated, JobFlags, ReportFlags, SettledFlags, Current, Leader, TimeFlags, Noted, Agree, BeforeAll;
      InRing(procs, tab, rings, pmaxindex, found);
      ghost var tab0, r := tab, rings[found];
      Report(found, w);
      ghost var tab1 := tab;
      TimeOrderly(procs, tab, rings, pmaxindex, found, slow);
      var f := (p: Process, f: set<Flag>) => TimeFlags(f, slow(p));
      jobflags := Around(found, f);
      ghost var tab2 := tab;
      TimeAgree(tab0, tab1, r, found, w, slow, f);
      UpdatedPid(tab1, r, f, found);
      Settle(found);
      SettledAgree(tab0, tab2, tab, r, found, w, tab2[found].friends == found, jobflags);
      SameLeaders(tab0, tab, r, found, w, pcurrent, pprevious, pcurrjob);
      UpdatedIs(tab1, r, f);
      BeforeDone(tab0, tab1, tab2, tab, r, found, w, slow, f);
    }

    method Report(found: Process, w: Wait)
      requires Core() && found in procs && found in tab && tab[found].flags * {Running, Stopped} != {}
      modifies this`tab, found`flags, found`reason
      ensures Core() && found.reason == Reason(w) && found in old(tab)
      ensures tab == old(tab)[found := old(tab)[found].(flags := ReportFlags(old(tab)[found].flags, w))]
      ensures ReportFlags(old(tab)[found].flags, w) * STATES == {StateOf(w)} && Reported !in ReportFlags(old(tab)[found].flags, w)
    {
      hide Held, Sound, Orderly, ReportFlags;
      InRing(procs, tab, rings, pmaxindex, found);
      ReportState(tab[found].flags, w);
      HeldAt(found);
      SetFlags(found, ReportFlags(found.flags, w));
      SetReason(found, Reason(w));
    }

    method Settle(found: Process)
      requires Core() && found in tab
      modifies this`tab, found`flags
      ensures Core() && found in old(tab)
      ensures tab == old(tab)[found := old(tab)[found].(flags := SettledFlags(old(tab)[found].flags, old(tab)[found].friends == found))]
    {
      hide Held, Sound, Orderly, SettledFlags;
      InTable(found);
      HeldAt(found);
      InRing(procs, tab, rings, pmaxindex, found);
      SettledOrderly(tab[found].flags, found == found.friends);
      SetFlags(found, SettledFlags(found.flags, found == found.friends));
    }

    method SetReason(p: Process, n: int)
      requires Core()
      modifies p`reason
      ensures Core() && p.reason == n
    {
      hide Sound;
      ghost var l := procs;
      p.reason := n;
      forall q | q in procs ensures Holds(q) {
        assert old(Holds(q));
      }
      forall i | 0 <= i < |procs| ensures Follows(procs, i) {
        assert old(Follows(procs, i));
      }
    }

    /** `pchild()`, for one report of `wait3` about process `pid`: `slow` are the
        processes whose times are to be printed, and `notify` is the variable.
        Only processes that have not ended are reported. */
    method Pchild(pid: int, w: Wait, slow: Process -> bool, notify: bool) returns (ghost pp: Process?)
      requires Valid() && pid > 0
      requires forall p :: p in tab && tab[p].pid == pid ==> tab[p].flags * {Running, Stopped} != {}
      modifies this, procs
      ensures Valid() && procs == old(procs) && rings == old(rings)
      ensures pp == null ==> (forall p :: p in tab ==> tab[p].pid != pid) && tab == old(tab)
      ensures pp == null ==> pcurrent == old(pcurrent) && pprevious == old(pprevious) && pcurrjob == old(pcurrjob)
      ensures pp != null ==> pp in old(tab) && old(tab)[pp].pid == pid && pp in rings && rings[pp] != []
      ensures pp != null ==> After(old(tab), tab, rings[pp], pp, w, notify) && pp.reason == Reason(w)
      ensures pp != null ==> FinalAll(old(tab), tab, rings[pp], pp, w, slow, Settled(old(tab), tab, rings[pp], pp), notify)
      ensures neednote == old(neednote) + if pp != null && Announced(old(tab), tab, rings[pp], pp, notify) then 1 else 0
      ensures pp != null ==> Pointed(procs, old(tab), tab, rings[pp], pp, (old(pcurrent), old(pprevious)), (pcurrent, pprevious))
      ensures pp != null ==> pcurrjob == if Goes(old(tab), tab, rings[pp], notify) && old(pcurrjob) == rings[pp][0] then null else old(pcurrjob)
    {
      hide Held, Sound, Orderly, Updated, JobFlags, ReportFlags, SettledFlags, After, Pointed, Goes, Leader, TimeFlags, Noted, Agree, FinalAll, BeforeAll, DoneAll, Settled, Waits;
      var found := Find(pid);
      pp := found;
      if found == null {
        return;
      }
      InRing(procs, tab, rings, pmaxindex, found);
      InTable(found);
      ghost var tab0, r := tab, rings[found];
      var jobflags := TakeNote(found, w, slow);
      ghost var tab3 := tab;
      if jobflags * {Running, Reported} == {} {
        JobDone(found, tab0, w, jobflags, notify);
        SettledIs(tab0, tab3, tab, r, found, w, jobflags, notify);
        FinalDone(tab0, tab3, tab, r, found, w, slow, notify);
      } else {
        SoundStates(procs, tab, rings, pmaxindex);
        Unsettled(tab0, tab, r, found, w, jobflags);
        FinalStill(tab0, tab, r, found, w, slow, notify);
        StillGoing(procs, tab0, tab, r, found, w, jobflags, notify, (pcurrent, pprevious));
      }
    }

    /** `pflushall()` */
    method Pflushall()
      requires Valid()
      modifies this, procs
      ensures Valid() && procs == old(procs) && forall p :: p in tab ==> tab[p].pid == 0
      ensures pcurrent == null && pprevious == null && pcurrjob == null && pmaxindex == 0
    {
      hide Held, Sound, Current, Flushed, Cleared;
      FirstAt();
      var pp := proclist.next;
      ghost var k: nat := 0;
      while pp != null
        invariant Valid() == true && procs == old(procs) && k <= |procs| && pp == Nth(k)
        invariant AllGone(k) == true
        decreases |procs| - k
      {
        NextAt(k);
        HeldAt(pp);
        ghost var tab0 := tab;
        if pp.pid != 0 {
          InRing(procs, tab, rings, pmaxindex, pp);
          Pflush(pp);
          FlushedGone(tab0, rings[pp], procs, k);
        }
        NextAt(k);
        pp := pp.next;
        k := k + 1;
      }
      NothingLeft();
    }

    /** The first `k` processes of the list have been flushed. */
    ghost predicate AllGone(k: nat)
      reads this`procs, this`tab
    {
      k <= |procs| && forall i :: 0 <= i < k ==> procs[i] in tab && tab[procs[i]].pid == 0
    }

    lemma NothingLeft()
      requires Valid() && AllGone(|procs|)
      ensures forall p :: p in tab ==> tab[p].pid == 0
      ensures pcurrent == null && pprevious == null && pcurrjob == null && pmaxindex == 0
    {
      hide AllRings, Pids, States;
      forall p | p in tab ensures tab[p].pid == 0 {
        assert p in procs;
        var i :| 0 <= i < |procs| && procs[i] == p;
      }
    }

    /** `pendjob()`, apart from what it prints. */
    method Pendjob()
      requires Valid()
      modifies this`pcurrjob
      ensures Valid() && pcurrjob == null
    {
      pcurrjob := null;
    }

    /** No other process has the number of this one. */
    lemma OnlyOne(p: Process)
      requires Core() && p in tab && tab[p].pid != 0
      ensures forall q :: q in tab && tab[q].pid == tab[p].pid ==> q == p
      ensures tab[p].flags == p.flags
    {
      assert p in procs && Holds(p);
    }

    /** `pfind("%n")` */
    method Pfind(index: int) returns (pp: Process?)
      requires Valid()
      ensures pp != null ==> Leader(tab, pp) && tab[pp].index == index
      ensures pp == null ==> forall p :: p in tab && Leader(tab, p) ==> tab[p].index != index
    {
      hide Held, Sound, Current;
      FirstAt();
      pp := proclist.next;
      ghost var k: nat := 0;
      NoZero();
      while pp != null
        invariant k <= |procs| && pp == Nth(k)
        invariant forall x :: 0 <= x < k ==> procs[x] in tab && !(Leader(tab, procs[x]) && tab[procs[x]].index == index)
        decreases |procs| - k
      {
        NextAt(k);
        HeldAt(pp);
        if pp.index == index && pp.pid == pp.jobid {
          return;
        }
        pp := pp.next;
        k := k + 1;
      }
      NoJob(index);
    }

    /** A process that has been flushed does not have the number of its job. */
    lemma NoZero()
      requires Core()
      ensures forall p :: p in tab && tab[p].pid == tab[p].jobid ==> Leader(tab, p)
    {
      forall p | p in tab && tab[p].pid == tab[p].jobid ensures Leader(tab, p) {
        LeaderFirst(tab, rings, p);
        assert RingOf(tab, rings, p);
      }
    }

    lemma NoJob(index: int)
      requires Held() && forall x :: 0 <= x < |procs| ==> procs[x] in tab && !(Leader(tab, procs[x]) && tab[procs[x]].index == index)
      ensures forall p :: p in tab && Leader(tab, p) ==> tab[p].index != index
    {
      forall p | p in tab && Leader(tab, p) ensures tab[p].index != index {
        assert p in procs;
      }
    }

    /** The system never gives out the number of a process that is still in the
        table, and reports only processes that have not ended; what would break
        this is passed over. */
    method Obey(e: Event)
      requires Valid()
      modifies this, proclist, procs
      ensures Valid() == true && forall p :: p in procs ==> p in old(procs) || fresh(p)
    {
      hide Held, Sound, Current, Leader, After, Pointed, Flushed, Updated, Started, Joined, Kept, Cleared, MostRecent;
      match e {
        case Fork(pid, background, timed, piped, both) => ObeyFork(pid, background, timed, piped, both);
        case EndJob => Pendjob();
        case Child(pid, w, slow, notify) => ObeyChild(pid, w, slow, notify);
        case Start(index, foregnd) =>
          var p := Pfind(index);
          if p != null {
            Pstart(p, foregnd);
          }
        case FlushJob(index) =>
          var p := Pfind(index);
          if p != null {
            LeaderIn(tab, p);
            InTable(p);
            LeaderPid(tab, p);
            Pflush(p);
          }
        case FlushAll => Pflushall();
        case Free =>
          SweptFrom(procs, tab);
          Sweep();
      }
    }

    method ObeyFork(pid: int, background: bool, timed: bool, piped: bool, both: bool)
      requires Valid()
      modifies this, proclist, procs
      ensures Valid() == true && forall p :: p in procs ==> p in old(procs) || fresh(p)
    {
      hide Held, Sound, Current, Started, Joined, Leader;
      if pid != 0 {
        var p := Find(pid);
        if p == null {
          var pp := Palloc(pid, background, timed, piped, both);
        }
      }
    }

    method ObeyChild(pid: int, w: Wait, slow: bool, notify: bool)
      requires Valid()
      modifies this, procs
      ensures Valid() == true && procs == old(procs)
    {
      hide Held, Sound, Current, After, Pointed, Leader;
      if pid > 0 {
        var p := Find(pid);
        if p != null {
          OnlyOne(p);
          if p.flags * {Running, Stopped} == {} {
            return;
          }
        }
        var pp := Pchild(pid, w, (p: Process) => slow, notify);
      }
    }

    /** The part of `pchild` for a job of which no process runs and which has not
        been reported as stopped. */
    method JobDone(pp: Process, ghost tab0: Tab, ghost w: Wait, jobflags: set<Flag>, notify: bool)
      requires Valid() && pp in tab && pp in rings && rings[pp] != [] && tab[pp].pid != 0
      requires Noted(tab0, tab, rings[pp], pp, w) && Agree(tab0, tab, rings[pp], jobflags) && jobflags * {Running, Reported} == {}
      modifies this, procs`flags, procs`index, procs`pid
      ensures Valid() && procs == old(procs) && rings == old(rings)
      ensures DoneAll(old(tab), tab, rings[pp], Waits(jobflags, notify), Goes(tab0, tab, rings[pp], notify))
      ensures neednote == old(neednote) + if Waits(jobflags, notify) then 1 else 0
      ensures After(tab0, tab, rings[pp], pp, w, notify)
      ensures Pointed(procs, tab0, tab, rings[pp], pp, (old(pcurrent), old(pprevious)), (pcurrent, pprevious))
      ensures pcurrjob == if Goes(tab0, tab, rings[pp], notify) && old(pcurrjob) == rings[pp][0] then null else old(pcurrjob)
    {
      hide Held, Sound, Orderly, Updated, JobFlags, Current, After, Pointed, Leader, Goes, Noted, Agree, Rests, Flushed, Cleared, MarkFlags, NoticedAll, DoneAll, Waits;
      ghost var tab1, r, was := tab, rings[pp], (pcurrent, pprevious);
      DoneLeaders(procs, tab0, tab1, rings, pmaxindex, r, pp, w);
      InRing(procs, tab, rings, pmaxindex, pp);
      MarkOrderly(procs, tab, rings, pmaxindex);
      var f := (p: Process, f: set<Flag>) => MarkFlags(f);
      var flags := Around(pp, f);
      MarkRests(tab1, r, f);
      ghost var tab2 := tab;
      UpdatedLeaders(tab1, r, f);
      UpdatedPid(tab1, r, f, pp);
      StillLeaders(tab1, tab, null, pcurrent, pprevious, pcurrjob);
      var l := Leading(pp);
      SoundListed(procs, tab, rings, pmaxindex);
      MarkedLeaders(tab0, tab1, tab, r);
      ClearedAlike(procs, tab0, tab, was.0, was.1, l);
      Point(l, Stopped in jobflags);
      ghost var gone := Notice(pp, l, jobflags, notify, tab1);
      Finish(procs, tab0, tab1, tab, r, pp, w, jobflags, notify, gone, was, (pcurrent, pprevious));
      MarkedAll(tab1, tab2, tab, r, f, Waits(jobflags, notify), gone);
    }

    /** A job that has stopped becomes the current one; one that has ended is no
        longer the current or the previous one. */
    method Point(l: Process, stopped: bool)
      requires Held() && Listed(procs, tab) && Current(tab, pcurrent, pprevious) && Leader(tab, l)
      modifies this`pcurrent, this`pprevious
      ensures Current(tab, pcurrent, pprevious)
      ensures stopped ==> (pcurrent, pprevious) == (l, if old(pcurrent) != null && old(pcurrent) != l then old(pcurrent) else old(pprevious))
      ensures !stopped ==> (pcurrent, pprevious) == Cleared(procs, tab, old(pcurrent), old(pprevious), l) && pcurrent != l && pprevious != l
    {
      hide Held, Listed, Current, Leader, Cleared;
      if stopped {
        StopPointers(tab, l, pcurrent, pprevious);
        if pcurrent != null && pcurrent != l {
          pprevious := pcurrent;
        }
        pcurrent := l;
      } else {
        ClearedFacts(procs, tab, pcurrent, pprevious, l);
        Pclrcurr(l);
      }
    }

    /** A job in the background is flushed, or noted to be printed later. */
    method Notice(pp: Process, l: Process, jobflags: set<Flag>, notify: bool, ghost tab1: Tab) returns (ghost gone: bool)
      requires Valid() && pp in tab && pp in rings && tab[pp].pid != 0 && rings[pp] != [] && l == rings[pp][0]
      requires Rests(tab1, tab, rings[pp], false) && (Stopped !in jobflags ==> pcurrent != l && pprevious != l)
      modifies this, procs`flags, procs`index, procs`pid
      ensures neednote == old(neednote) + if Waits(jobflags, notify) then 1 else 0
      ensures Valid() && procs == old(procs) && rings == old(rings) && pcurrent == old(pcurrent) && pprevious == old(pprevious)
      ensures Rests(tab1, tab, rings[pp], gone) && NoticedAll(old(tab), tab, rings[pp], l, Waits(jobflags, notify), gone)
      ensures pcurrjob == if gone && old(pcurrjob) == l then null else old(pcurrjob)
      ensures gone <==> Stopped !in jobflags && Foregnd !in jobflags && (notify || Notify in jobflags)
    {
      hide Held, Sound, Orderly, Current, Leader, Rests, Flushed, Cleared, NoticedAll;
      gone := false;
      InRing(procs, tab, rings, pmaxindex, pp);
      NoticeNothing(tab, rings[pp], l, Waits(jobflags, notify));
      if Foregnd !in jobflags {
        if Notify in jobflags || notify {
          if Stopped !in jobflags {
            gone := true;
            NotPointed(procs, tab, pcurrent, pprevious, l);
            NoticeFlushed(tab, rings[pp], l);
            FlushRests(tab1, tab, rings[pp]);
            Pflush(pp);
          }
        } else {
          NoteRests(procs, tab1, tab, rings, pmaxindex, rings[pp], l);
          ghost var tab2 := tab;
          InTable(l);
          HeldAt(l);
          NoticeMarked(tab, rings[pp], l);
          SetFlags(l, l.flags + {NeedNote});
          StillLeaders(tab2, tab, null, pcurrent, pprevious, pcurrjob);
          neednote := neednote + 1;
        }
      }
    }
  }

  lemma LeaderPid(tab: Tab, p: Process)
    requires Leader(tab, p)
    ensures p in tab && tab[p].pid != 0
  {
  }

  lemma {:induction false} SweptFrom(procs: seq<Process>, tab: Tab)
    ensures forall p :: p in Swept(procs, tab) ==> p in procs
  {
    if procs != [] {
      SweptFrom(procs[1..], tab);
    }
  }

  lemma FlushedGone(tab: Tab, r: seq<Process>, procs: seq<Process>, k: nat)
    requires k < |procs| && procs[k] in r && procs[k] in tab
    requires forall i :: 0 <= i < k ==> procs[i] in tab && tab[procs[i]].pid == 0
    ensures forall i :: 0 <= i <= k ==> procs[i] in Flushed(tab, r) && Flushed(tab, r)[procs[i]].pid == 0
  {
  }

  /** Every run keeps the table in order. */
  method Run(events: seq<Event>) returns (t: JobTable)
    ensures fresh(t) && t.Valid()
  {
    t := new JobTable();
    for i := 0 to |events|
      invariant fresh(t) && fresh(t.proclist) && t.Valid() == true && fresh(t.procs)
    {
      t.Obey(events[i]);
      forall k | 0 <= k < |t.procs| ensures fresh(t.procs[k]) {
        assert t.procs[k] in t.procs;
      }
    }
  }

  /** What is stopped counts as reported. */
  function MarkFlags(f: set<Flag>): set<Flag> {
    if Stopped in f then f + {Reported} else f
  }

  /** All states are as before, nothing has happened to other jobs, and the job
      has been flushed if `gone`. */
  ghost predicate Rests(tab: Tab, tab': Tab, r: seq<Process>, gone: bool) {
    && tab'.Keys == tab.Keys && (forall p :: p in tab && p !in r ==> tab'[p] == tab[p])
    && (forall p :: p in tab && p in r ==> tab'[p].flags * STATES == tab[p].flags * STATES && GoneIf(tab[p], tab'[p], gone))
  }

  lemma MarkOrderly(procs: seq<Process>, tab: Tab, rings: Rings, maxindex: int)
    requires Sound(procs, tab, rings, maxindex)
    ensures forall p :: p in tab ==> Orderly(MarkFlags(tab[p].flags))
  {
    hide Orderly;
    forall p | p in tab ensures Orderly(MarkFlags(tab[p].flags)) {
      Marks(tab[p].flags);
    }
  }

  lemma Marks(f: set<Flag>)
    ensures MarkFlags(f) * STATES == f * STATES
    ensures Orderly(f) ==> Orderly(MarkFlags(f))
  {
    assert MarkFlags(f) * STATES == f * STATES;
  }

  lemma MarkRests(tab: Tab, r: seq<Process>, f: (Process, set<Flag>) -> set<Flag>)
    requires forall p, x :: f(p, x) == MarkFlags(x)
    ensures Rests(tab, Updated(tab, r, f), r, false)
  {
    forall p | p in tab && p in r ensures Updated(tab, r, f)[p].flags * STATES == tab[p].flags * STATES {
      Marks(tab[p].flags);
    }
  }

  lemma UpdatedIs(tab: Tab, r: seq<Process>, f: (Process, set<Flag>) -> set<Flag>)
    ensures Updated(tab, r, f).Keys == tab.Keys
    ensures forall p :: p in tab ==> Updated(tab, r, f)[p] == if p in r then tab[p].(flags := f(p, tab[p].flags)) else tab[p]
  {
  }

  lemma UpdatedPid(tab: Tab, r: seq<Process>, f: (Process, set<Flag>) -> set<Flag>, p: Process)
    requires p in tab
    ensures p in Updated(tab, r, f) && Updated(tab, r, f)[p].pid == tab[p].pid
  {
  }

  lemma StopPointers(tab: Tab, l: Process, cur: Process?, prev: Process?)
    requires Current(tab, cur, prev) && Leader(tab, l)
    ensures Current(tab, l, if cur != null && cur != l then cur else prev)
  {
  }

  lemma NotPointed(procs: seq<Process>, tab: Tab, cur: Process?, prev: Process?, l: Process)
    requires cur != l && prev != l
    ensures Cleared(procs, tab, cur, prev, l) == (cur, prev)
  {
  }

  lemma FlushRests(tab: Tab, tab': Tab, r: seq<Process>)
    requires Rests(tab, tab', r, false)
    ensures Rests(tab, Flushed(tab', r), r, true)
  {
    var tab'' := Flushed(tab', r);
    forall p | p in tab && p in r ensures tab''[p].flags * STATES == tab[p].flags * STATES {
      assert (tab'[p].flags - {NeedNote}) * STATES == tab'[p].flags * STATES;
    }
  }

  lemma NoteRests(procs: seq<Process>, tab: Tab, tab': Tab, rings: Rings, maxindex: int, r: seq<Process>, l: Process)
    requires Sound(procs, tab', rings, maxindex) && Rests(tab, tab', r, false) && l in r && l in tab'
    ensures Orderly(tab'[l].flags + {NeedNote})
    ensures var tab'' := tab'[l := tab'[l].(flags := tab'[l].flags + {NeedNote})];
      Rests(tab, tab'', r, false) && forall p :: p in tab' ==> Leader(tab'', p) == Leader(tab', p)
  {
    var f := tab'[l].flags;
    assert (f + {NeedNote}) * STATES == f * STATES;
    assert Orderly(f);
    OrderlyStill(f, f + {NeedNote});
  }

  /** Whether a job has ended does not change with what `pchild` does last. */
  lemma RestsEnded(tab: Tab, tab': Tab, r: seq<Process>, gone: bool)
    requires Rests(tab, tab', r, gone)
    ensures forall x :: x in {Running, Stopped} ==> (x in JobFlags(tab', r) <==> x in JobFlags(tab, r))
  {
    hide JobFlags;
    forall p | p in tab && p in r ensures (Running in tab'[p].flags <==> Running in tab[p].flags) && (Stopped in tab'[p].flags <==> Stopped in tab[p].flags) {
      StateFlags(tab[p].flags, tab'[p].flags);
    }
    FlagsAlike(tab, tab', r, Running);
    FlagsAlike(tab, tab', r, Stopped);
  }

  lemma Finish(procs: seq<Process>, tab: Tab, tab1: Tab, tab2: Tab, r: seq<Process>, pp: Process, w: Wait, jobflags: set<Flag>,
               notify: bool, gone: bool, was: (Process?, Process?), now: (Process?, Process?))
    requires Noted(tab, tab1, r, pp, w) && Agree(tab, tab1, r, jobflags) && Rests(tab1, tab2, r, gone) && r != []
    requires jobflags * {Running, Reported} == {}
    requires gone <==> Stopped !in jobflags && Foregnd !in jobflags && (notify || Notify in jobflags)
    requires if Stopped in jobflags then now == (r[0], if was.0 != null && was.0 != r[0] then was.0 else was.1)
             else now == Cleared(procs, tab, was.0, was.1, r[0]) && now.0 != r[0] && now.1 != r[0]
    ensures After(tab, tab2, r, pp, w, notify) && Pointed(procs, tab, tab2, r, pp, was, now)
    ensures Goes(tab, tab2, r, notify) == gone
  {
    hide Cleared;
    RestsEnded(tab1, tab2, r, gone);
    NoRunning(jobflags);
    hide JobFlags;
    EndedIs(JobFlags(tab2, r));
    assert Running !in JobFlags(tab2, r);
    assert Ended(tab2, r) <==> Stopped !in jobflags;
    assert Goes(tab, tab2, r, notify) == gone;
    NoneReported(tab, tab1, r, pp, w, jobflags);
  }

  lemma NoneReported(tab: Tab, tab1: Tab, r: seq<Process>, pp: Process, w: Wait, jobflags: set<Flag>)
    requires Noted(tab, tab1, r, pp, w) && Agree(tab, tab1, r, jobflags) && Reported !in jobflags
    ensures forall p :: p in tab && p in r && p != pp ==> Reported !in tab[p].flags
  {
    forall p | p in tab && p in r && p != pp ensures Reported !in tab[p].flags {
      assert Reported in tab1[p].flags ==> Reported in JobFlags(tab1, r);
    }
  }

  /** Which other jobs there are, and which of them are stopped, is as before. */
  ghost predicate OthersAlike(tab: Tab, tab': Tab, l: Process) {
    && tab'.Keys == tab.Keys
    && forall p :: p in tab && p != l ==> (Leader(tab, p) <==> Leader(tab', p))
                                          && (Leader(tab, p) ==> (Stopped in tab[p].flags <==> Stopped in tab'[p].flags))
  }

  lemma {:induction false} FirstAlike(procs: seq<Process>, tab: Tab, tab': Tab, cur: Process?, l: Process, stopped: bool)
    requires OthersAlike(tab, tab', l)
    ensures FirstJob(procs, tab, cur, l, stopped) == FirstJob(procs, tab', cur, l, stopped)
  {
    if procs != [] {
      FirstAlike(procs[1..], tab, tab', cur, l, stopped);
    }
  }

  lemma ClearedAlike(procs: seq<Process>, tab: Tab, tab': Tab, cur: Process?, prev: Process?, l: Process)
    requires OthersAlike(tab, tab', l)
    ensures Cleared(procs, tab, cur, prev, l) == Cleared(procs, tab', cur, prev, l)
  {
    hide OthersAlike, FirstJob;
    forall c: Process?, b: bool ensures FirstJob(procs, tab, c, l, b) == FirstJob(procs, tab', c, l, b) {
      FirstAlike(procs, tab, tab', c, l, b);
    }
  }

  lemma DoneLeaders(procs: seq<Process>, tab: Tab, tab1: Tab, rings: Rings, maxindex: int, r: seq<Process>, pp: Process, w: Wait)
    requires Sound(procs, tab1, rings, maxindex) && pp in rings && rings[pp] == r && r != [] && pp in tab1 && tab1[pp].pid != 0
    requires Noted(tab, tab1, r, pp, w)
    ensures OthersAlike(tab, tab1, r[0])
  {
    hide Listed, Pids, Indexed, States;
    assert RingOf(tab1, rings, pp);
    if pp != r[0] {
      assert InJob(tab1, r[0], pp);
    }
    forall p | p in tab && p in r && p != pp ensures Stopped in tab[p].flags <==> Stopped in tab1[p].flags {
      StateFlags(tab[p].flags, tab1[p].flags);
    }
  }

  lemma MarkedLeaders(tab: Tab, tab1: Tab, tab2: Tab, r: seq<Process>)
    requires r != [] && OthersAlike(tab, tab1, r[0]) && Rests(tab1, tab2, r, false)
    requires forall p :: p in tab1 ==> Leader(tab2, p) == Leader(tab1, p)
    ensures OthersAlike(tab, tab2, r[0])
  {
    forall p | p in tab1 && p in r ensures Stopped in tab1[p].flags <==> Stopped in tab2[p].flags {
      StateFlags(tab1[p].flags, tab2[p].flags);
    }
  }

  lemma NoRunning(f: set<Flag>)
    requires f * {Running, Reported} == {}
    ensures Running !in f && Reported !in f
  {
    assert Running in f ==> Running in f * {Running, Reported};
    assert Reported in f ==> Reported in f * {Running, Reported};
  }

  lemma EndedIs(f: set<Flag>)
    ensures f * {Running, Stopped} == {} <==> Running !in f && Stopped !in f
    ensures f * {Running, Stopped} == {Stopped} <==> Running !in f && Stopped in f
  {
    assert Running in f ==> Running in f * {Running, Stopped};
    assert Stopped in f ==> Stopped in f * {Running, Stopped};
  }

  lemma FlagsAlike(tab: Tab, tab': Tab, r: seq<Process>, x: Flag)
    requires forall p :: p in r ==> (p in tab <==> p in tab') && (p in tab ==> (x in tab[p].flags <==> x in tab'[p].flags))
    ensures x in JobFlags(tab, r) <==> x in JobFlags(tab', r)
  {
  }

  lemma StateFlags(f: set<Flag>, f': set<Flag>)
    requires f * STATES == f' * STATES
    ensures (Running in f <==> Running in f') && (Stopped in f <==> Stopped in f')
  {
    assert Running in f <==> Running in f * STATES;
    assert Running in f' <==> Running in f' * STATES;
    assert Stopped in f <==> Stopped in f * STATES;
    assert Stopped in f' <==> Stopped in f' * STATES;
  }

  /** After the first loop of `pchild`. */
  lemma TimeAgree(tab: Tab, tab1: Tab, r: seq<Process>, pp: Process, w: Wait, slow: Process -> bool, f: (Process, set<Flag>) -> set<Flag>)
    requires pp in tab && pp in r && tab1 == tab[pp := tab[pp].(flags := ReportFlags(tab[pp].flags, w))]
    requires ReportFlags(tab[pp].flags, w) * STATES == {StateOf(w)} && Reported !in ReportFlags(tab[pp].flags, w)
    requires forall p, x :: f(p, x) == TimeFlags(x, slow(p))
    ensures var tab2 := Updated(tab1, r, f); Noted(tab, tab2, r, pp, w) && Agree(tab, tab2, r, JobFlags(tab2, r))
  {
    hide JobFlags;
    var tab2 := Updated(tab1, r, f);
    forall p | p in tab && p in r ensures SameState(tab1[p].flags, tab2[p].flags)
      ensures forall x :: x in {Foregnd, Notify} ==> (x in tab[p].flags <==> x in tab2[p].flags)
    {
      TimeState(tab1[p].flags, slow(p));
    }
    forall x | x in {Foregnd, Notify} ensures x in JobFlags(tab, r) <==> x in JobFlags(tab2, r) {
      FlagsAlike(tab, tab2, r, x);
    }
  }

  lemma SettledAgree(tab: Tab, tab2: Tab, tab3: Tab, r: seq<Process>, pp: Process, w: Wait, alone: bool, jobflags: set<Flag>)
    requires Noted(tab, tab2, r, pp, w) && Agree(tab, tab2, r, jobflags)
    requires tab3 == tab2[pp := tab2[pp].(flags := SettledFlags(tab2[pp].flags, alone))]
    ensures Noted(tab, tab3, r, pp, w) && Agree(tab, tab3, r, jobflags)
  {
    hide JobFlags;
    SettledState(tab2[pp].flags, alone);
    StateFlags(tab2[pp].flags, tab3[pp].flags);
    forall x | x in {Running, Stopped, Reported} ensures x in JobFlags(tab2, r) <==> x in JobFlags(tab3, r) {
      FlagsAlike(tab2, tab3, r, x);
    }
  }

  lemma SameLeaders(tab: Tab, tab': Tab, r: seq<Process>, pp: Process, w: Wait, cur: Process?, prev: Process?, job: Process?)
    requires Noted(tab, tab', r, pp, w) && Current(tab, cur, prev) && (job != null ==> Leader(tab, job))
    ensures Current(tab', cur, prev) && (job != null ==> Leader(tab', job)) && pp in tab' && tab'[pp].pid == tab[pp].pid
  {
  }

  lemma SoundStates(procs: seq<Process>, tab: Tab, rings: Rings, maxindex: int)
    requires Sound(procs, tab, rings, maxindex)
    ensures States(tab)
  {
  }

  /** A job that still runs, or has been reported as stopped. */
  lemma StillGoing(procs: seq<Process>, tab: Tab, tab': Tab, r: seq<Process>, pp: Process, w: Wait, jobflags: set<Flag>, notify: bool, was: (Process?, Process?))
    requires Noted(tab, tab', r, pp, w) && Agree(tab, tab', r, jobflags) && jobflags * {Running, Reported} != {} && States(tab') && r != []
    ensures After(tab, tab', r, pp, w, notify) && Pointed(procs, tab, tab', r, pp, was, was)
    ensures !Goes(tab, tab', r, notify)
  {
    hide JobFlags, Orderly, Cleared;
    GoingFlags(tab', r, jobflags);
    EndedIs(JobFlags(tab', r));
    if Running !in JobFlags(tab', r) {
      var p := WhoReported(tab', r, jobflags);
      assert p != pp;
    }
  }

  lemma GoingFlags(tab: Tab, r: seq<Process>, jobflags: set<Flag>)
    requires States(tab) && jobflags * {Running, Reported} != {}
    requires forall x :: x in {Running, Reported} ==> (x in jobflags <==> x in JobFlags(tab, r))
    ensures Running in JobFlags(tab, r) || Stopped in JobFlags(tab, r)
  {
    var x :| x in jobflags * {Running, Reported};
    assert x in JobFlags(tab, r);
    var p :| p in r && p in tab && x in tab[p].flags;
    assert Orderly(tab[p].flags);
  }

  lemma WhoReported(tab: Tab, r: seq<Process>, jobflags: set<Flag>) returns (p: Process)
    requires jobflags * {Running, Reported} != {} && Running !in JobFlags(tab, r)
    requires forall x :: x in {Running, Reported} ==> (x in jobflags <==> x in JobFlags(tab, r))
    ensures p in r && p in tab && Reported in tab[p].flags
  {
    var x :| x in jobflags * {Running, Reported};
    assert x in JobFlags(tab, r) && x == Reported;
    p :| p in r && p in tab && x in tab[p].flags;
  }

  lemma OneFlags(procs: seq<Process>, tab: Tab, rings: Rings, maxindex: int, p: Process, flags: set<Flag>)
    requires Sound(procs, tab, rings, maxindex) && p in tab && Orderly(flags)
    ensures Sound(procs, tab[p := tab[p].(flags := flags)], rings, maxindex)
  {
    hide Orderly;
    FlagsOnly(procs, tab, rings, maxindex, tab[p := tab[p].(flags := flags)]);
  }

  lemma NoneUpdated(tab: Tab, s: seq<Process>, f: (Process, set<Flag>) -> set<Flag>)
    ensures Updated(tab, s[..0], f) == tab && JobFlags(tab, s[..0]) == {}
  {
  }

  /** The flags gathered after one more process. */
  lemma UpdatedFlags(tab: Tab, s: seq<Process>, k: nat, f: (Process, set<Flag>) -> set<Flag>)
    requires Distinct(s) && k < |s| && s[k] in tab
    ensures JobFlags(Updated(tab, s[..k + 1], f), s[..k + 1]) == JobFlags(Updated(tab, s[..k], f), s[..k]) + f(s[k], tab[s[k]].flags)
  {
    assert s[..k + 1] == s[..k] + [s[k]];
    assert s[k] !in s[..k];
    var u, u' := Updated(tab, s[..k], f), Updated(tab, s[..k + 1], f);
    var a, b := JobFlags(u', s[..k + 1]), JobFlags(u, s[..k]) + f(s[k], tab[s[k]].flags);
    forall x | x in a ensures x in b {
      var p :| p in s[..k + 1] && p in u' && x in u'[p].flags;
      assert p == s[k] || (p in s[..k] && x in u[p].flags);
    }
    forall x | x in b ensures x in a {
      if x in f(s[k], tab[s[k]].flags) {
        assert s[k] in s[..k + 1] && x in u'[s[k]].flags;
      } else {
        var p :| p in s[..k] && p in u && x in u[p].flags;
        assert p in s[..k + 1] && x in u'[p].flags;
      }
    }
  }

  lemma SameMembers(tab: Tab, s: seq<Process>, r: seq<Process>, f: (Process, set<Flag>) -> set<Flag>)
    requires forall p :: p in s <==> p in r
    ensures Updated(tab, s, f) == Updated(tab, r, f)
    ensures JobFlags(Updated(tab, s, f), s) == JobFlags(Updated(tab, r, f), r)
  {
  }

  lemma UpdatedSound(procs: seq<Process>, tab: Tab, rings: Rings, maxindex: int, pp: Process, f: (Process, set<Flag>) -> set<Flag>)
    requires Sound(procs, tab, rings, maxindex) && pp in tab && pp in rings
    requires forall p :: p in rings[pp] && p in tab ==> Orderly(f(p, tab[p].flags))
    ensures Sound(procs, Updated(tab, rings[pp], f), rings, maxindex)
  {
    hide Orderly;
    FlagsOnly(procs, tab, rings, maxindex, Updated(tab, rings[pp], f));
  }

  lemma UpdatedLeaders(tab: Tab, r: seq<Process>, f: (Process, set<Flag>) -> set<Flag>)
    ensures forall p :: p in tab ==> Leader(Updated(tab, r, f), p) == Leader(tab, p)
  {
  }

  lemma StartOrderly(procs: seq<Process>, tab: Tab, rings: Rings, maxindex: int, pp: Process, foregnd: bool)
    requires Sound(procs, tab, rings, maxindex) && Leader(tab, pp)
    ensures pp in rings && forall p :: p in rings[pp] && p in tab ==> Orderly(StartFlags(tab[p].flags, foregnd))
  {
    hide Orderly, StartFlags;
    forall p | p in rings[pp] && p in tab ensures Orderly(StartFlags(tab[p].flags, foregnd)) {
      StartState(tab[p].flags, foregnd);
    }
  }

  lemma SoundListed(procs: seq<Process>, tab: Tab, rings: Rings, maxindex: int)
    requires Sound(procs, tab, rings, maxindex)
    ensures Listed(procs, tab)
  {
  }

  /** The process has ended, and its times are to be printed. */
  function TimeFlags(f: set<Flag>, slow: bool): set<Flag> {
    if f * {PTime, Running, Stopped} == {} && slow then f + {Time} else f
  }

  /** A process that is reported is no longer in the foreground. */
  function SettledFlags(f: set<Flag>, alone: bool): set<Flag> {
    if alone && PTime in f then f - {Foregnd, PTime} + {Time} else f - {Foregnd}
  }

  /** The signal, or the exit code. */
  function Reason(w: Wait): int {
    match w
    case StoppedBy(sig) => sig
    case KilledBy(sig, _) => sig
    case Exit(code) => code
  }

  function ReportedIf(f: set<Flag>, me: bool, w: Wait): set<Flag> {
    if me then ReportFlags(f, w) else f
  }

  function SettledIf(f: set<Flag>, me: bool, alone: bool): set<Flag> {
    if me then SettledFlags(f, alone) else f
  }

  /** A job in the background is to be announced later, unless notification has been asked for. */
  predicate Waits(jobflags: set<Flag>, notify: bool) {
    Foregnd !in jobflags && !notify && Notify !in jobflags
  }

  /** The leader of a job to be announced is marked; a flushed job needs no announcement. */
  function NoticedFlags(f: set<Flag>, leader: bool, waits: bool, gone: bool): set<Flag> {
    if gone then f - {NeedNote} else if leader && waits then f + {NeedNote} else f
  }

  /** The flags of a process of the job, once a report about one of them has been taken note of. */
  function FinalFlags(f: set<Flag>, me: bool, leader: bool, w: Wait, slow: bool, alone: bool, settled: bool, waits: bool, gone: bool): set<Flag> {
    var g := SettledIf(TimeFlags(ReportedIf(f, me, w), slow), me, alone);
    if settled then NoticedFlags(MarkFlags(g), leader, waits, gone) else g
  }

  /** Flag by flag. */
  lemma FlagsMean(f: set<Flag>, me: bool, leader: bool, w: Wait, slow: bool, alone: bool, settled: bool, waits: bool, gone: bool)
    ensures var g := FinalFlags(f, me, leader, w, slow, alone, settled, waits, gone);
            && (forall x :: x in {Notify, Diag, Pou} ==> (x in g <==> x in f))
            && (Foregnd in g <==> !me && Foregnd in f)
            && (Dumped in g <==> Dumped in f || (me && w.KilledBy? && w.core))
            && (Reported in g <==> (!me && Reported in f) || (settled && Stopped in g))
            && (NeedNote in g <==> !(settled && gone) && (NeedNote in f || (settled && leader && waits)))
  {
    FlagsMeanFirst(f, me, w, slow);
  }

  lemma StatesMean(f: set<Flag>, me: bool, leader: bool, w: Wait, slow: bool, alone: bool, settled: bool, waits: bool, gone: bool)
    ensures var g := FinalFlags(f, me, leader, w, slow, alone, settled, waits, gone);
            && (!me ==> forall x :: x in STATES ==> (x in g <==> x in f))
            && (me && f * STATES <= {Running, Stopped} ==>
                  forall x :: x in STATES ==> (x in g <==> x == match w
                                                                case StoppedBy(_) => Stopped
                                                                case KilledBy(sig, _) => if sig == 2 then Interrupted else Signaled
                                                                case Exit(code) => if code == 0 then NExited else AExited))
  {
    FlagsMeanFirst(f, me, w, slow);
    forall x | x in f && x in STATES && f * STATES <= {Running, Stopped} ensures x == Running || x == Stopped {
      assert x in f * STATES;
    }
  }

  lemma TimesMean(f: set<Flag>, me: bool, leader: bool, w: Wait, slow: bool, alone: bool, settled: bool, waits: bool, gone: bool)
    ensures var g := FinalFlags(f, me, leader, w, slow, alone, settled, waits, gone);
            && (PTime in g <==> PTime in f && !(me && alone))
            && (Time in g <==> (Time in f || (me && alone && PTime in f)
                                || (slow && PTime !in f && if me then !w.StoppedBy? else Running !in f && Stopped !in f)))
  {
    FlagsMeanFirst(f, me, w, slow);
  }

  lemma FlagsMeanFirst(f: set<Flag>, me: bool, w: Wait, slow: bool)
    ensures var g := TimeFlags(ReportedIf(f, me, w), slow);
            && (Time in g <==> Time in f || (slow && PTime !in f && if me then !w.StoppedBy? else Running !in f && Stopped !in f))
            && (forall x :: x != Time ==> (x in g <==> x in ReportedIf(f, me, w)))
  {
    var h := ReportedIf(f, me, w);
    assert h * {PTime, Running, Stopped} == {} <==> PTime !in h && Running !in h && Stopped !in h by {
      assert PTime in h ==> PTime in h * {PTime, Running, Stopped};
      assert Running in h ==> Running in h * {PTime, Running, Stopped};
      assert Stopped in h ==> Stopped in h * {PTime, Running, Stopped};
    }
  }

  ghost predicate NoticedAll(tab: Tab, tab': Tab, r: seq<Process>, l: Process, waits: bool, gone: bool) {
    forall p :: p in r ==> p in tab && p in tab' && tab'[p].flags == NoticedFlags(tab[p].flags, p == l, waits, gone)
  }

  lemma NoticeNothing(tab: Tab, r: seq<Process>, l: Process, waits: bool)
    requires (forall p :: p in r ==> p in tab)
    ensures !waits ==> NoticedAll(tab, tab, r, l, waits, false)
  {
  }

  lemma NoticeFlushed(tab: Tab, r: seq<Process>, l: Process)
    requires (forall p :: p in r ==> p in tab)
    ensures forall waits: bool :: NoticedAll(tab, Flushed(tab, r), r, l, waits, true)
  {
  }

  lemma NoticeMarked(tab: Tab, r: seq<Process>, l: Process)
    requires l in tab && (forall p :: p in r ==> p in tab)
    ensures NoticedAll(tab, tab[l := tab[l].(flags := tab[l].flags + {NeedNote})], r, l, true, false)
  {
  }

  ghost predicate DoneAll(tab: Tab, tab': Tab, r: seq<Process>, waits: bool, gone: bool)
    requires r != []
  {
    forall p :: p in r ==> p in tab && p in tab' && tab'[p].flags == NoticedFlags(MarkFlags(tab[p].flags), p == r[0], waits, gone)
  }

  lemma MarkedAll(tab1: Tab, tab2: Tab, tab': Tab, r: seq<Process>, f: (Process, set<Flag>) -> set<Flag>, waits: bool, gone: bool)
    requires r != [] && tab2 == Updated(tab1, r, f) && (forall p, x :: f(p, x) == MarkFlags(x))
    requires NoticedAll(tab2, tab', r, r[0], waits, gone)
    ensures DoneAll(tab1, tab', r, waits, gone)
  {
    hide NoticedFlags, MarkFlags;
    UpdatedIs(tab1, r, f);
  }

  /** The flags before it is seen whether the job has settled. */
  ghost predicate BeforeAll(tab: Tab, tab': Tab, r: seq<Process>, pp: Process, w: Wait, slow: Process -> bool)
    requires pp in tab
  {
    forall p :: p in r ==>
      && p in tab && p in tab'
      && tab'[p].flags == SettledIf(TimeFlags(ReportedIf(tab[p].flags, p == pp, w), slow(p)), p == pp, tab[pp].friends == pp)
  }

  lemma BeforeDone(tab: Tab, tab1: Tab, tab2: Tab, tab3: Tab, r: seq<Process>, pp: Process, w: Wait, slow: Process -> bool,
                   f: (Process, set<Flag>) -> set<Flag>)
    requires pp in tab && pp in r && (forall p :: p in r ==> p in tab) && forall p, x :: f(p, x) == TimeFlags(x, slow(p))
    requires tab1 == tab[pp := tab[pp].(flags := ReportFlags(tab[pp].flags, w))] && tab2 == Updated(tab1, r, f)
    requires tab3 == tab2[pp := tab2[pp].(flags := SettledFlags(tab2[pp].flags, tab[pp].friends == pp))]
    ensures BeforeAll(tab, tab3, r, pp, w, slow)
  {
    hide ReportFlags, TimeFlags, SettledFlags;
    UpdatedIs(tab1, r, f);
  }

  /** What has become of the flags of every process of the job. */
  ghost predicate FinalAll(tab: Tab, tab': Tab, r: seq<Process>, pp: Process, w: Wait, slow: Process -> bool, settled: bool, notify: bool)
    requires pp in tab && r != []
  {
    forall p :: p in r ==>
      && p in tab && p in tab'
      && tab'[p].flags == FinalFlags(tab[p].flags, p == pp, p == r[0], w, slow(p), tab[pp].friends == pp, settled,
                                     Waits(JobFlags(tab, r), notify), Goes(tab, tab', r, notify))
  }

  /** The job has settled in the background, and nobody has asked to be told at once. */
  ghost predicate Announced(tab: Tab, tab': Tab, r: seq<Process>, pp: Process, notify: bool) {
    Settled(tab, tab', r, pp) && Waits(JobFlags(tab, r), notify)
  }

  lemma FinalDone(tab: Tab, tab3: Tab, tab': Tab, r: seq<Process>, pp: Process, w: Wait, slow: Process -> bool, notify: bool)
    requires pp in tab && r != [] && BeforeAll(tab, tab3, r, pp, w, slow)
    requires DoneAll(tab3, tab', r, Waits(JobFlags(tab, r), notify), Goes(tab, tab', r, notify))
    ensures FinalAll(tab, tab', r, pp, w, slow, true, notify)
  {
    hide NoticedFlags, MarkFlags, TimeFlags, SettledIf, ReportedIf, Goes, Waits, JobFlags;
  }

  lemma FinalStill(tab: Tab, tab': Tab, r: seq<Process>, pp: Process, w: Wait, slow: Process -> bool, notify: bool)
    requires pp in tab && r != [] && BeforeAll(tab, tab', r, pp, w, slow)
    ensures FinalAll(tab, tab', r, pp, w, slow, false, notify)
  {
    hide NoticedFlags, MarkFlags, TimeFlags, SettledIf, ReportedIf, Goes, Waits, JobFlags;
  }

  lemma SettledIs(tab: Tab, tab3: Tab, tab5: Tab, r: seq<Process>, pp: Process, w: Wait, jobflags: set<Flag>, notify: bool)
    requires Noted(tab, tab3, r, pp, w) && Agree(tab, tab3, r, jobflags) && jobflags * {Running, Reported} == {}
    requires After(tab, tab5, r, pp, w, notify)
    ensures Settled(tab, tab5, r, pp) && Waits(jobflags, notify) == Waits(JobFlags(tab, r), notify)
  {
    hide JobFlags, Goes;
    NoRunning(jobflags);
    NoneReported(tab, tab3, r, pp, w, jobflags);
    forall p | p in tab && p in r ensures Running in tab5[p].flags <==> Running in tab3[p].flags {
      StateFlags(tab5[p].flags, tab3[p].flags);
    }
    FlagsAlike(tab3, tab5, r, Running);
  }

  lemma Unsettled(tab: Tab, tab3: Tab, r: seq<Process>, pp: Process, w: Wait, jobflags: set<Flag>)
    requires Noted(tab, tab3, r, pp, w) && Agree(tab, tab3, r, jobflags) && jobflags * {Running, Reported} != {}
    ensures !Settled(tab, tab3, r, pp)
  {
    if Running !in JobFlags(tab3, r) {
      var p := WhoReported(tab3, r, jobflags);
      assert p != pp && Reported in tab[p].flags;
    }
  }

  /** Only flags have changed, only those of one job, and one process is in a new state. */
  ghost predicate Noted(tab: Tab, tab': Tab, r: seq<Process>, pp: Process, w: Wait) {
    && SameButFlags(tab, tab') && pp in r && pp in tab && tab'[pp].flags * STATES == {StateOf(w)} && Reported !in tab'[pp].flags
    && (forall p :: p in tab && p !in r ==> tab'[p] == tab[p])
    && (forall p :: p in tab && p in r && p != pp ==> SameState(tab[p].flags, tab'[p].flags))
  }

  /** The flags gathered tell about the states after the report, and about the
      foreground and notification before it. */
  ghost predicate Agree(tab: Tab, tab': Tab, r: seq<Process>, jobflags: set<Flag>) {
    && (forall x :: x in {Running, Stopped, Reported} ==> (x in jobflags <==> x in JobFlags(tab', r)))
    && (forall x :: x in {Foregnd, Notify} ==> (x in jobflags <==> x in JobFlags(tab, r)))
  }

  /** No process of the job runs or is stopped. */
  ghost predicate Ended(tab: Tab, r: seq<Process>) {
    JobFlags(tab, r) * {Running, Stopped} == {}
  }

  /** A job that has ended in the background is flushed as soon as notification
      has been asked for. */
  ghost predicate Goes(tab: Tab, tab': Tab, r: seq<Process>, notify: bool) {
    Ended(tab', r) && Foregnd !in JobFlags(tab, r) && (notify || Notify in JobFlags(tab, r))
  }

  /** What a report about `pp` leaves: `pp` is in the state that was reported, all
      other processes are in the states they were in, nothing happens to other
      jobs, and the job is flushed if it goes. */
  ghost predicate After(tab: Tab, tab': Tab, r: seq<Process>, pp: Process, w: Wait, notify: bool) {
    && tab'.Keys == tab.Keys && (forall p :: p in tab && p !in r ==> tab'[p] == tab[p])
    && (forall p :: p in tab && p in r ==> tab'[p].flags * STATES == if p == pp then {StateOf(w)} else tab[p].flags * STATES)
    && (forall p :: p in tab && p in r ==> GoneIf(tab[p], tab'[p], Goes(tab, tab', r, notify)))
  }

  predicate GoneIf(i: Info, i': Info, gone: bool) {
    i'.friends == i.friends && i'.jobid == i.jobid && i'.pid == (if gone then 0 else i.pid) && i'.index == if gone then 0 else i.index
  }

  /** No process of the job runs, and none but `pp` has been reported as stopped. */
  ghost predicate Settled(tab: Tab, tab': Tab, r: seq<Process>, pp: Process) {
    Running !in JobFlags(tab', r) && forall p :: p in tab && p in r && p != pp ==> Reported !in tab[p].flags
  }

  /** If the job has just stopped it becomes the current one, and what was current
      the previous one; if it has ended it is neither any longer, and the most
      recent other jobs take its place; in all other cases nothing changes. */
  ghost predicate Pointed(procs: seq<Process>, tab: Tab, tab': Tab, r: seq<Process>, pp: Process, was: (Process?, Process?), now: (Process?, Process?))
    requires r != []
  {
    && (!Settled(tab, tab', r, pp) ==> now == was)
    && (Settled(tab, tab', r, pp) && Stopped in JobFlags(tab', r) ==> now == (r[0], if was.0 != null && was.0 != r[0] then was.0 else was.1))
    && (Settled(tab, tab', r, pp) && Stopped !in JobFlags(tab', r) ==> now == Cleared(procs, tab, was.0, was.1, r[0]))
    && (Ended(tab', r) ==> now.0 != r[0] && now.1 != r[0])
  }

  lemma InRing(procs: seq<Process>, tab: Tab, rings: Rings, maxindex: int, pp: Process)
    requires Sound(procs, tab, rings, maxindex) && pp in tab
    ensures pp in procs && pp in rings && pp in rings[pp] && rings[pp] != [] && Orderly(tab[pp].flags)
    ensures forall p :: p in rings[pp] ==> p in tab
  {
    assert RingOf(tab, rings, pp);
  }

  lemma TimeOrderly(procs: seq<Process>, tab: Tab, rings: Rings, maxindex: int, pp: Process, slow: Process -> bool)
    requires Sound(procs, tab, rings, maxindex)
    ensures forall p :: p in tab ==> Orderly(TimeFlags(tab[p].flags, slow(p)))
  {
    hide Orderly;
    forall p | p in tab ensures Orderly(TimeFlags(tab[p].flags, slow(p))) {
      TimeState(tab[p].flags, slow(p));
      OrderlyStill(tab[p].flags, TimeFlags(tab[p].flags, slow(p)));
    }
  }

  lemma TimeState(f: set<Flag>, slow: bool)
    ensures SameState(f, TimeFlags(f, slow))
    ensures forall x :: x != Time ==> (x in TimeFlags(f, slow) <==> x in f)
  {
    assert (f + {Time}) * STATES == f * STATES;
  }

  lemma SettledOrderly(f: set<Flag>, alone: bool)
    requires Orderly(f)
    ensures Orderly(SettledFlags(f, alone))
  {
    SettledState(f, alone);
    OrderlyStill(f, SettledFlags(f, alone));
  }

  lemma SettledState(f: set<Flag>, alone: bool)
    ensures SameState(f, SettledFlags(f, alone))
  {
    assert SettledFlags(f, alone) * STATES == f * STATES;
  }

  lemma Without(a: seq<Process>, p: Process, b: seq<Process>)
    requires Distinct(a + ([p] + b))
    ensures var l, m := a + ([p] + b), a + b;
      && Distinct(m) && (forall q :: q in m ==> q in l)
      && forall i {:trigger m[i]} :: 0 <= i < |m| ==> m[i] == l[if i < |a| then i else i + 1]
  {
    var l, m := a + ([p] + b), a + b;
    forall i | 0 <= i < |m| ensures m[i] == l[if i < |a| then i else i + 1] {
    }
  }

  lemma SweptNone(tab: Tab)
    ensures Swept([], tab) == []
  {
  }

  lemma {:induction false} SweptMore(procs: seq<Process>, k: nat, tab: Tab)
    requires k < |procs|
    ensures Swept(procs[..k + 1], tab) == Swept(procs[..k], tab) + if procs[k] in tab && tab[procs[k]].pid != 0 then [procs[k]] else []
  {
    assert procs[..k + 1] == procs[..k] + [procs[k]];
    SweptConcat(procs[..k], [procs[k]], tab);
  }

  lemma {:induction false} SweptConcat(a: seq<Process>, b: seq<Process>, tab: Tab)
    ensures Swept(a + b, tab) == Swept(a, tab) + Swept(b, tab)
  {
    if a == [] {
      assert a + b == b;
    } else {
      assert (a + b)[1..] == a[1..] + b;
      SweptConcat(a[1..], b, tab);
    }
  }

  /** Some process has this index. */
  ghost predicate HasIndex(tab: Tab, i: int) {
    exists p :: p in tab && tab[p].index == i
  }

  /** A new job with a process of its own: its index is one more than the largest
      below `BIGINDEX`, and otherwise the smallest one that was not in use. */
  ghost predicate Started(tab0: Tab, max0: int, tab: Tab, max: int, pp: Process, pid: int, flags: set<Flag>) {
    && pp in tab && tab == NewJob(tab0, pp, flags, tab[pp].index, pid)
    && tab[pp].index >= 1 && !HasIndex(tab0, tab[pp].index)
    && max == (if tab[pp].index > max0 then tab[pp].index else max0)
    && (max0 < BIGINDEX ==> tab[pp].index == max0 + 1)
    && (max0 >= BIGINDEX ==> forall j :: 1 <= j < tab[pp].index ==> HasIndex(tab0, j))
  }

  /** A new process behind the last one of a job. */
  ghost predicate Joined(tab0: Tab, rings0: Rings, tab: Tab, job: Process, pp: Process, pid: int, flags: set<Flag>) {
    && job in tab0 && job in rings0 && rings0[job] != [] && rings0[job][|rings0[job]| - 1] in tab0
    && tab == NewFriend(tab0, pp, flags, pid, job, rings0[job][|rings0[job]| - 1])
  }

  lemma FriendTab(tab0: Tab, rings0: Rings, tab: Tab, job: Process, last: Process, pp: Process, flags: set<Flag>, pid: int)
    requires job in tab0 && last in tab0 && job in rings0 && rings0[job] != [] && last == rings0[job][|rings0[job]| - 1]
    requires tab == tab0[last := tab0[last].(friends := pp)][pp := Info(job, flags, tab0[job].index, pid, tab0[job].pid)]
    ensures tab == NewFriend(tab0, pp, flags, pid, job, last) && Joined(tab0, rings0, tab, job, pp, pid, flags)
  {
  }

  lemma NewIndex(procs: seq<Process>, tab: Tab, rings: Rings, maxindex: int, pp: Process, flags: set<Flag>, index: int, pid: int)
    requires Sound(procs, tab, rings, maxindex) && pp !in tab && Orderly(flags)
    requires pid != 0 && (forall p :: p in tab ==> tab[p].pid != pid) && index >= 1 && !HasIndex(tab, index)
    ensures Sound([pp] + procs, NewJob(tab, pp, flags, index, pid), rings[pp := [pp]], if index > maxindex then index else maxindex)
  {
    hide Sound;
    assert forall p :: p in tab ==> tab[p].index != index;
    NewJobFacts(procs, tab, rings, maxindex, pp, flags, index, pid);
  }

  lemma NewPointers(tab: Tab, tab': Tab, pp: Process, cur: Process?, prev: Process?)
    requires Current(tab, cur, prev) && pp !in tab && Leader(tab', pp)
    requires forall p :: p in tab ==> p in tab' && tab'[p] == tab[p]
    ensures Current(tab', if cur == null then pp else cur, if cur != null && prev == null then pp else prev)
  {
  }

  /** The flags of a process that has just been forked. */
  /** The flags of a new process: it runs, in the foreground unless it is a command in
      the background; and it is known whether it is timed, and pipes its output, or
      both its outputs, on. */
  function FirstFlags(background: bool, timed: bool, piped: bool, both: bool): (f: set<Flag>)
    ensures Orderly(f) && f * STATES == {Running} && f <= {Running, Foregnd, PTime, Pou, Diag}
    ensures (Foregnd in f <==> !background) && (PTime in f <==> timed) && (Pou in f <==> piped) && (Diag in f <==> piped && both)
  {
    var f := (if background then {Running} else {Running, Foregnd}) + (if timed then {PTime} else {})
             + (if piped then {Pou} else {}) + if piped && both then {Diag} else {};
    assert f * STATES == {Running};
    f
  }

  lemma IndexOfJob(tab: Tab, rings: Rings, maxindex: int, p: Process)
    requires AllRings(tab, rings) && Indexed(tab, maxindex) && p in tab
    ensures tab[p].index <= maxindex
  {
    LeaderFirst(tab, rings, p);
    if tab[p].pid != 0 {
      assert InJob(tab, rings[p][0], p);
    }
  }

  lemma Longer(pp: Process, l: seq<Process>)
    requires Distinct(l) && pp !in l
    ensures Distinct([pp] + l)
  {
  }

  lemma LeaderIn(tab: Tab, l: Process)
    requires Leader(tab, l)
    ensures l in tab
  {
  }

  /** The pointers to other jobs than `l` still point to jobs. */
  lemma StillLeaders(tab: Tab, tab': Tab, l: Process?, cur: Process?, prev: Process?, job: Process?)
    requires forall p :: p in tab && Leader(tab, p) && p != l ==> Leader(tab', p)
    requires Current(tab, cur, prev) && (l != null ==> cur != l && prev != l)
    requires job != null ==> Leader(tab, job) && job != l
    ensures Current(tab', cur, prev) && (job != null ==> Leader(tab', job))
  {
  }

  lemma NoneFlushed(tab: Tab, r: seq<Process>)
    ensures Flushed(tab, r[..0]) == tab
  {
  }

  /** A place of a ring. */
  lemma RingAt(tab: Tab, r: seq<Process>, k: nat)
    requires Linked(tab, r) && k < |r|
    ensures r[k] in tab && tab[r[k]].friends == (if k + 1 < |r| then r[k + 1] else r[0])
    ensures Distinct(r) && (k + 1 < |r| ==> r[k + 1] != r[0])
  {
    assert LinkedAt(tab, r, k);
  }

  lemma FlushedMore(tab: Tab, r: seq<Process>, k: nat)
    requires Distinct(r) && k < |r| && r[k] in tab
    ensures var i := tab[r[k]]; Flushed(tab, r[..k + 1]) == Flushed(tab, r[..k])[r[k] := i.(pid := 0, index := 0, flags := i.flags - {NeedNote})]
    ensures r[k] in Flushed(tab, r[..k]) && Flushed(tab, r[..k])[r[k]] == tab[r[k]]
  {
    assert r[..k + 1] == r[..k] + [r[k]];
    assert r[k] !in r[..k];
  }
}