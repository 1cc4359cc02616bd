/** The chat retention sweep: pages of channels asked about by a few workers at once, deleting as it goes. */
module Retention {
  import opened Sets
  import opened Wrappers

  type OrderId = nat

  /** In milliseconds. */
  const DAY := 24 * 60 * 60_000

  /** What the Order Service says of an errand. */
  datatype Answer = Unavailable | NoSuchErrand | Errand(endedAt: Option<int>)

  datatype Verdict = Skips | Unknown | Keeps | Deletes

  datatype Result = Result(deleted: nat, kept: nat, skipped: nat, unknown: nat) {
    function Total(): nat { deleted + kept + skipped + unknown }
  }

  /** Of a run: the time it began, the retention period, what each errand answers and which deletes fail. */
  datatype Run = Run(now: int, retentionDays: int, answers: map<OrderId, Answer>, failing: set<OrderId>) {
    function AnswerOn(order: OrderId): Answer { if order in answers then answers[order] else NoSuchErrand }

    function Cutoff(): int { now - retentionDays * DAY }
  }

  type Channels = map<OrderId, int>

  predicate PastRetention(endedAt: Option<int>, retentionDays: int, now: int) {
    endedAt.Some? && now - endedAt.value > retentionDays * DAY
  }

  function VerdictOf(run: Run, answer: Answer): Verdict {
    match answer
    case Unavailable => Skips
    case NoSuchErrand => Unknown
    case Errand(endedAt) => if PastRetention(endedAt, run.retentionDays, run.now) then Deletes else Keeps
  }

  predicate ToDelete(run: Run, order: OrderId) { VerdictOf(run, run.AnswerOn(order)) == Deletes }

  predicate Fails(run: Run, order: OrderId) { ToDelete(run, order) && order in run.failing }

  /** The channels opened before the cutoff, beyond `after`: those a run asks about. */
  function Candidates(channels: Channels, cutoff: int, after: int): set<OrderId> {
    set o <- channels | channels[o] < cutoff && o > after
  }

  // ----- counting

  function Counted(r: Result, verdict: Verdict): Result {
    match verdict
    case Deletes => r.(deleted := r.deleted + 1)
    case Keeps => r.(kept := r.kept + 1)
    case Skips => r.(skipped := r.skipped + 1)
    case Unknown => r.(unknown := r.unknown + 1)
  }

  /** The counts after settling these channels, in order. A delete that fails counts as nothing. */
  function Tally(run: Run, settled: seq<OrderId>): Result {
    if settled == [] then Result(0, 0, 0, 0)
    else
      var last := settled[|settled| - 1];
      var before := Tally(run, settled[..|settled| - 1]);
      if Fails(run, last) then before else Counted(before, VerdictOf(run, run.AnswerOn(last)))
  }

  predicate Distinct(s: seq<OrderId>) { forall i, j | 0 <= i < j < |s| :: s[i] != s[j] }

  function Elements(s: seq<OrderId>): set<OrderId> { set o <- s }

  function Judged(run: Run, orders: set<OrderId>, verdict: Verdict): set<OrderId> {
    set o <- orders | VerdictOf(run, run.AnswerOn(o)) == verdict
  }

  function CountOf(r: Result, verdict: Verdict): nat {
    match verdict
    case Deletes => r.deleted
    case Keeps => r.kept
    case Skips => r.skipped
    case Unknown => r.unknown
  }

  /** Each count is how many of the channels got that verdict, and they add up. */
  ghost predicate Counts(run: Run, r: Result, orders: set<OrderId>) {
    (forall v :: CountOf(r, v) == |Judged(run, orders, v)|) && r.Total() == |orders|
  }

  lemma CountsOn(run: Run, r: Result, orders: set<OrderId>, last: OrderId)
    requires Counts(run, r, orders) && last !in orders
    ensures Counts(run, Counted(r, VerdictOf(run, run.AnswerOn(last))), orders + {last})
  {
    var after := Counted(r, VerdictOf(run, run.AnswerOn(last)));
    forall v ensures CountOf(after, v) == |Judged(run, orders + {last}, v)| {
      OneMoreJudged(run, orders, last, v);
      assert CountOf(r, v) == |Judged(run, orders, v)|;
    }
  }

  lemma NoneCounted(run: Run)
    ensures Counts(run, Result(0, 0, 0, 0), {})
  {
    forall v ensures Judged(run, {}, v) == {} {}
  }

  /** Without failures the tally counts every channel settled, whatever the order. */
  lemma {:induction false} TallyCounts(run: Run, settled: seq<OrderId>)
    requires Distinct(settled) && forall o <- settled :: !Fails(run, o)
    ensures Counts(run, Tally(run, settled), Elements(settled))
  {
    if settled == [] {
      NoneCounted(run);
      assert Elements(settled) == {};
    } else {
      var last := settled[|settled| - 1];
      var before := settled[..|settled| - 1];
      TallyCounts(run, before);
      LastIsNew(settled);
      CountsOn(run, Tally(run, before), Elements(before), last);
    }
  }

  lemma LastIsNew(settled: seq<OrderId>)
    requires settled != [] && Distinct(settled)
    ensures var last := settled[|settled| - 1];
            var before := settled[..|settled| - 1];
            last !in Elements(before) && Elements(settled) == Elements(before) + {last}
  {
    assert settled == settled[..|settled| - 1] + [settled[|settled| - 1]];
  }

  lemma OneMoreJudged(run: Run, orders: set<OrderId>, last: OrderId, verdict: Verdict)
    requires last !in orders
    ensures |Judged(run, orders + {last}, verdict)|
         == |Judged(run, orders, verdict)| + if VerdictOf(run, run.AnswerOn(last)) == verdict then 1 else 0
  {
    var all := Judged(run, orders + {last}, verdict);
    if VerdictOf(run, run.AnswerOn(last)) == verdict {
      assert all == Judged(run, orders, verdict) + {last};
    } else {
      assert all == Judged(run, orders, verdict);
    }
  }

  /** What is left of the channels after these were settled. */
  function Left(run: Run, channels: Channels, settled: set<OrderId>): Channels {
    map o <- channels | !(o in settled && ToDelete(run, o) && o !in run.failing) :: channels[o]
  }

  // ----- pages

  predicate Ascending(s: seq<OrderId>) { forall i, j | 0 <= i < j < |s| :: s[i] < s[j] }

  /** Candidates in ascending order, leaving one out only past the limit and beyond them all. */
  ghost predicate IsPage(channels: Channels, cutoff: int, limit: nat, after: int, page: seq<OrderId>) {
    && |page| <= limit && Ascending(page)
    && (forall o <- page :: o in Candidates(channels, cutoff, after))
    && (forall o <- Candidates(channels, cutoff, after) | o !in page :: |page| == limit && forall p <- page :: p < o)
  }

  /** Those of the candidates still to come. */
  function Beyond(all: set<OrderId>, after: int): set<OrderId> { set o <- all | o > after }

  lemma TakesNew(items: seq<OrderId>, i: nat)
    requires Distinct(items) && i < |items|
    ensures items[i] !in Elements(items[..i])
    ensures Elements(items[..i + 1]) == Elements(items[..i]) + {items[i]}
  {
    assert items[..i + 1] == items[..i] + [items[i]];
  }

  /** The workers are never all idle with items left: one goes on. */
  lemma OneIsBusy(busy: map<OrderId, Answer>, left: bool, limit: nat)
    requires limit >= 1 && (left ==> |busy| >= limit || busy != map[]) && (!left ==> busy != map[])
    ensures busy.Keys != {}
  {
    assert |busy| == |busy.Keys|;
  }

  lemma SettlesNew(run: Run, channels: Channels, before: seq<OrderId>, settled: seq<OrderId>, order: OrderId)
    requires Distinct(settled) && order !in Elements(settled)
    ensures Distinct(settled + [order]) && Elements(settled + [order]) == Elements(settled) + {order}
    ensures Tally(run, before + (settled + [order]))
         == if Fails(run, order) then Tally(run, before + settled)
            else Counted(Tally(run, before + settled), VerdictOf(run, run.AnswerOn(order)))
    ensures Left(run, channels, Elements(settled) + {order})
         == if ToDelete(run, order) && order !in run.failing then Left(run, channels, Elements(settled)) - {order}
            else Left(run, channels, Elements(settled))
  {
    var all := before + (settled + [order]);
    assert all[..|all| - 1] == before + settled;
  }

  lemma JoinsDistinct(a: seq<OrderId>, b: seq<OrderId>)
    requires Distinct(a) && Distinct(b) && Elements(a) !! Elements(b)
    ensures Distinct(a + b) && Elements(a + b) == Elements(a) + Elements(b)
  {
    forall i, j | 0 <= i < |a| && 0 <= j < |b| ensures a[i] != b[j] {
      assert a[i] in Elements(a) && b[j] in Elements(b);
    }
  }

  lemma LeftTwice(run: Run, channels: Channels, first: set<OrderId>, later: set<OrderId>)
    ensures Left(run, Left(run, channels, first), later) == Left(run, channels, first + later)
  {}

  /** Deleting what was settled changes none of the candidates still to come. */
  lemma CandidatesLeft(run: Run, channels: Channels, settled: set<OrderId>, after: int)
    requires settled == Candidates(channels, run.Cutoff(), -1) - Beyond(Candidates(channels, run.Cutoff(), -1), after)
    requires after >= -1
    ensures Candidates(Left(run, channels, settled), run.Cutoff(), after)
         == Beyond(Candidates(channels, run.Cutoff(), -1), after)
  {}

  /** A short page holds all that is to come; a full one all up to its last, so the rest is less. */
  lemma PageCovers(channels: Channels, all: set<OrderId>, cutoff: int, limit: nat, after: int, page: seq<OrderId>)
    requires IsPage(channels, cutoff, limit, after, page)
    requires Candidates(channels, cutoff, after) == Beyond(all, after)
    ensures Distinct(page) && Elements(page) <= Beyond(all, after)
    ensures |page| < limit ==> Elements(page) == Beyond(all, after)
    ensures |page| == limit > 0 ==>
              var last := page[|page| - 1];
              && last > after && Beyond(all, last) == Beyond(all, after) - Elements(page)
              && |Beyond(all, last)| < |Beyond(all, after)|
  {
    if |page| == limit > 0 {
      var last := page[|page| - 1];
      assert last in page && last in Candidates(channels, cutoff, after);
      assert Beyond(all, last) == Beyond(all, after) - Elements(page);
      SubsetIsSmaller(Beyond(all, last), Beyond(all, after), last);
    }
  }

  /** `page` is the least of `all` so far, in order, and `rest` the others. */
  predicate Heads(page: seq<OrderId>, rest: set<OrderId>, all: set<OrderId>) {
    Ascending(page) && (forall o <- page, p <- rest :: o < p) && (forall o <- page :: o in all)
    && rest <= all && (forall o <- all :: o in page || o in rest)
  }

  lemma HeadsOn(page: seq<OrderId>, rest: set<OrderId>, all: set<OrderId>, least: OrderId)
    requires Heads(page, rest, all) && least in rest && forall o <- rest :: least <= o
    ensures Heads(page + [least], rest - {least}, all)
  {
    assert forall i | 0 <= i < |page| :: page[i] in page;
    assert least in page + [least];
  }

  // ----- the sweep and the simple way

  /** What asking about every channel, old and new, would leave. */
  function AskAll(run: Run, channels: Channels): Channels { Left(run, channels, channels.Keys) }

  /** Asking only about channels opened before the cutoff leaves what asking about all would, exactly when
      no channel to be deleted was opened since. */
  lemma CutoffMissesNone(run: Run, channels: Channels)
    ensures Left(run, channels, Candidates(channels, run.Cutoff(), -1)) == AskAll(run, channels)
       <==> forall o <- channels :: ToDelete(run, o) && o !in run.failing ==> channels[o] < run.Cutoff()
  {
    var swept, simple := Left(run, channels, Candidates(channels, run.Cutoff(), -1)), AskAll(run, channels);
    if o :| o in channels && ToDelete(run, o) && o !in run.failing && channels[o] >= run.Cutoff() {
      assert o in swept && o !in simple;
    } else {
      assert swept == simple;
    }
  }

  /** A channel opened no later than its errand ended. */
  predicate OpenedInTime(run: Run, channels: Channels, order: OrderId)
    requires order in channels
  {
    match run.AnswerOn(order)
    case Errand(Some(endedAt)) => channels[order] <= endedAt
    case _ => true
  }

  /** A sweep without failures, of channels each opened no later than its errand ended, however its pages
      fell and its workers took turns: it settles every candidate once, its counts add up to them, and it
      leaves what asking about every channel would. */
  lemma SweepIsTheSimpleOne(run: Run, channels: Channels, settled: seq<OrderId>)
    requires Distinct(settled) && AllDone(run, settled)
    requires Elements(settled) == Candidates(channels, run.Cutoff(), -1)
    requires forall o <- channels :: OpenedInTime(run, channels, o)
    ensures Left(run, channels, Elements(settled)) == AskAll(run, channels)
    ensures Counts(run, Tally(run, settled), Candidates(channels, run.Cutoff(), -1))
    ensures Tally(run, settled).Total() == |Candidates(channels, run.Cutoff(), -1)|
  {
    TallyCounts(run, settled);
    forall o <- channels | ToDelete(run, o) ensures channels[o] < run.Cutoff() {
      InTimeIsBeforeCutoff(run, channels, o);
    }
    CutoffMissesNone(run, channels);
  }

  /** When an errand ended, if the Order Service answers and knows it and it has. */
  function EndedAt(run: Run, order: OrderId): Option<int> {
    match run.AnswerOn(order)
    case Errand(endedAt) => endedAt
    case _ => None
  }

  /** After such a sweep exactly those channels are gone whose errands ended more than so many days ago: of an
      errand unknown, not answered for, or ended since, the channel is kept as it was. */
  lemma DeletesExactlyTheOld(run: Run, channels: Channels, settled: seq<OrderId>, order: OrderId)
    requires Distinct(settled) && AllDone(run, settled)
    requires Elements(settled) == Candidates(channels, run.Cutoff(), -1)
    requires (forall o <- channels :: OpenedInTime(run, channels, o)) && order in channels
    ensures var after := Left(run, channels, Elements(settled)); var ended := EndedAt(run, order);
            && (order !in after <==> ended.Some? && ended.value + run.retentionDays * 86_400_000 < run.now)
            && (order in after ==> after[order] == channels[order])
  {
    if ToDelete(run, order) {
      InTimeIsBeforeCutoff(run, channels, order);
      assert order in Elements(settled);
      assert !Fails(run, order);
    }
  }

  lemma InTimeIsBeforeCutoff(run: Run, channels: Channels, order: OrderId)
    requires order in channels && OpenedInTime(run, channels, order) && ToDelete(run, order)
    ensures channels[order] < run.Cutoff()
  {}

  predicate AllDone(run: Run, settled: seq<OrderId>) { forall o <- settled :: !Fails(run, o) }

  /** Items taken so far are with a worker, their answers known, or settled: each in one place. */
  predicate Pool(run: Run, taken: set<OrderId>, busy: map<OrderId, Answer>, done: set<OrderId>, limit: nat) {
    && |busy| <= limit
    && (forall o <- busy :: o in taken && o !in done && busy[o] == run.AnswerOn(o))
    && (forall o <- done :: o in taken)
    && (forall o <- taken :: o in busy || o in done)
  }

  lemma PoolTakes(run: Run, taken: set<OrderId>, busy: map<OrderId, Answer>, done: set<OrderId>, limit: nat, order: OrderId)
    requires Pool(run, taken, busy, done, limit) && order !in taken && |busy| < limit
    ensures Pool(run, taken + {order}, busy[order := run.AnswerOn(order)], done, limit)
    ensures |busy[order := run.AnswerOn(order)]| == |busy| + 1
  {
    var after := busy[order := run.AnswerOn(order)];
    assert after.Keys == busy.Keys + {order} && |after| == |after.Keys|;
  }

  lemma PoolSettles(run: Run, taken: set<OrderId>, busy: map<OrderId, Answer>, done: set<OrderId>, limit: nat, order: OrderId)
    requires Pool(run, taken, busy, done, limit) && order in busy
    ensures Pool(run, taken, busy - {order}, done + {order}, limit)
    ensures |busy - {order}| == |busy| - 1
  {
    var after := busy - {order};
    assert after.Keys == busy.Keys - {order} && |after| == |after.Keys|;
  }

  lemma AllDoneOn(run: Run, settled: seq<OrderId>, order: OrderId)
    ensures AllDone(run, settled + [order]) <==> AllDone(run, settled) && !Fails(run, order)
  {
    var all := settled + [order];
    assert all[|all| - 1] == order && forall o <- settled :: o in all;
  }

  lemma PageSettled(run: Run, channels: Channels, settled: seq<OrderId>, done: seq<OrderId>)
    requires Distinct(settled) && Distinct(done) && Elements(settled) !! Elements(done)
    ensures Distinct(settled + done) && Elements(settled + done) == Elements(settled) + Elements(done)
    ensures Left(run, Left(run, channels, Elements(settled)), Elements(done)) == Left(run, channels, Elements(settled + done))
    ensures AllDone(run, settled + done) <==> AllDone(run, settled) && AllDone(run, done)
  {
    JoinsDistinct(settled, done);
    LeftTwice(run, channels, Elements(settled), Elements(done));
    assert forall o <- settled :: o in settled + done;
    assert forall o <- done :: o in settled + done;
  }

  /** What is to come after the page is settled. */
  lemma PageMovesOn(all: set<OrderId>, after: int, settled: seq<OrderId>, done: seq<OrderId>, page: seq<OrderId>, limit: nat)
    requires limit >= 1 && |page| <= limit && Elements(done) == Elements(page)
    requires Elements(settled) == all - Beyond(all, after) && Elements(settled + done) == Elements(settled) + Elements(done)
    requires Elements(page) <= Beyond(all, after)
    requires |page| < limit ==> Elements(page) == Beyond(all, after)
    requires |page| == limit ==> Beyond(all, page[|page| - 1]) == Beyond(all, after) - Elements(page)
    ensures Elements(settled + done) == if |page| < limit then all else all - Beyond(all, page[|page| - 1])
  {}

  class Cleanup {
    const batchSize: nat
    const concurrency: nat
    var channels: Channels

    /** The sizes are whole numbers of at least 1. */
    constructor (channels: Channels, batchSize: nat, concurrency: nat)
      requires batchSize >= 1 && concurrency >= 1
      ensures this.channels == channels && this.batchSize == batchSize && this.concurrency == concurrency
    {
      this.channels, this.batchSize, this.concurrency := channels, batchSize, concurrency;
    }

    method ChannelsOpenedBefore(cutoff: int, limit: nat, after: int) returns (page: seq<OrderId>)
      ensures IsPage(channels, cutoff, limit, after, page)
    {
      page := [];
      var rest := Candidates(channels, cutoff, after);
      while rest != {} && |page| < limit
        invariant |page| <= limit && Heads(page, rest, Candidates(channels, cutoff, after))
        decreases |rest|
      {
        var least := Least(rest);
        HeadsOn(page, rest, Candidates(channels, cutoff, after), least);
        page, rest := page + [least], rest - {least};
      }
    }

    /** Acts on the answer for one channel. */
    method Settle(run: Run, order: OrderId, answer: Answer, counts: Result, ghost before: seq<OrderId>,
                  ghost settled: seq<OrderId>, ghost all: Channels)
      returns (ok: bool, result: Result)
      requires answer == run.AnswerOn(order) && order !in Elements(settled) && Distinct(settled)
      requires counts == Tally(run, before + settled) && channels == Left(run, all, Elements(settled))
      modifies this`channels
      ensures Distinct(settled + [order]) && Elements(settled + [order]) == Elements(settled) + {order}
      ensures result == Tally(run, before + (settled + [order]))
      ensures channels == Left(run, all, Elements(settled) + {order})
      ensures ok <==> !Fails(run, order)
    {
      SettlesNew(run, all, before, settled, order);
      ok, result := true, counts;
      match VerdictOf(run, answer)
      case Skips => result := result.(skipped := result.skipped + 1);
      case Unknown => result := result.(unknown := result.unknown + 1);
      case Deletes =>
        if order in run.failing {
          return false, counts;
        }
        channels := channels - {order};
        result := result.(deleted := result.deleted + 1);
      case Keeps => result := result.(kept := result.kept + 1);
    }

    /** Settles every item, at most `limit` at a time, whichever worker goes on next: a worker asks, and
        acts on the answer later. `settled` is the order in which they finish, `before` what was settled
        by earlier pages. */
    method EachAtMost(run: Run, items: seq<OrderId>, limit: nat, start: Result, ghost before: seq<OrderId>)
      returns (ok: bool, result: Result, ghost settled: seq<OrderId>)
      requires Distinct(items) && limit >= 1 && start == Tally(run, before)
      modifies this`channels
      ensures Distinct(settled) && Elements(settled) == Elements(items)
      ensures channels == Left(run, old(channels), Elements(items))
      ensures result == Tally(run, before + settled)
      ensures ok <==> AllDone(run, settled)
    {
      ghost var all := channels;
      ok, result, settled := true, start, [];
      assert before + [] == before;
      var busy: map<OrderId, Answer> := map[];
      var i := 0;
      ghost var taken: set<OrderId> := {};
      while i < |items| || busy != map[]
        invariant 0 <= i <= |items| && taken == Elements(items[..i])
        invariant Pool(run, taken, busy, Elements(settled), limit) && Distinct(settled)
        invariant channels == Left(run, all, Elements(settled))
        invariant result == Tally(run, before + settled)
        invariant ok <==> AllDone(run, settled)
        decreases 2 * (|items| - i) + |busy|
      {
        var takes := *;
        if i < |items| && |busy| < limit && (takes || busy == map[]) {
          TakesNew(items, i);
          PoolTakes(run, taken, busy, Elements(settled), limit, items[i]);
          busy := busy[items[i] := run.AnswerOn(items[i])];
          taken, i := taken + {items[i]}, i + 1;
        } else {
          OneIsBusy(busy, i < |items|, limit);
          var order :| order in busy;
          PoolSettles(run, taken, busy, Elements(settled), limit, order);
          AllDoneOn(run, settled, order);
          var done;
          done, result := Settle(run, order, busy[order], result, before, settled, all);
          ok := ok && done;
          settled := settled + [order];
          busy := busy - {order};
        }
      }
      assert items[..i] == items;
    }

    /** One page of a sweep: what lay up to `after` is settled, and then what lies up to the page's last. */
    method SweepPage(run: Run, after: int, counts: Result, ghost was: Channels, ghost all: set<OrderId>,
                     ghost settled: seq<OrderId>)
      returns (ok: bool, result: Result, page: seq<OrderId>, ghost on: seq<OrderId>)
      requires batchSize >= 1 && concurrency >= 1 && after >= -1 && all == Candidates(was, run.Cutoff(), -1)
      requires Distinct(settled) && Elements(settled) == all - Beyond(all, after) && AllDone(run, settled)
      requires channels == Left(run, was, Elements(settled)) && counts == Tally(run, settled)
      modifies this`channels
      ensures Distinct(on) && channels == Left(run, was, Elements(on)) && result == Tally(run, on)
      ensures ok <==> AllDone(run, on)
      ensures |page| <= batchSize
      ensures Elements(on) == if |page| < batchSize then all else all - Beyond(all, page[|page| - 1])
      ensures |page| == batchSize ==>
                page[|page| - 1] > after && |Beyond(all, page[|page| - 1])| < |Beyond(all, after)|
    {
      CandidatesLeft(run, was, Elements(settled), after);
      page := ChannelsOpenedBefore(run.Cutoff(), batchSize, after);
      PageCovers(channels, all, run.Cutoff(), batchSize, after, page);
      ghost var done;
      ok, result, done := EachAtMost(run, page, concurrency, counts, settled);
      PageSettled(run, was, settled, done);
      PageMovesOn(all, after, settled, done, page, batchSize);
      on := settled + done;
    }

    method Sweep(run: Run) returns (ok: bool, result: Result, ghost settled: seq<OrderId>)
      requires batchSize >= 1 && concurrency >= 1
      modifies this`channels
      ensures Distinct(settled) && Elements(settled) <= Candidates(old(channels), run.Cutoff(), -1)
      ensures channels == Left(run, old(channels), Elements(settled)) && result == Tally(run, settled)
      ensures ok <==> AllDone(run, settled)
      ensures ok ==> Elements(settled) == Candidates(old(channels), run.Cutoff(), -1)
      ensures forall o <- settled, earlier <- Candidates(old(channels), run.Cutoff(), -1) | earlier < o :: earlier in settled
    {
      ok, result, settled := true, Result(0, 0, 0, 0), [];
      var after: int := -1;
      ghost var was := channels;
      ghost var all := Candidates(channels, run.Cutoff(), -1);
      var more := true;
      while more
        invariant after >= -1 && Distinct(settled)
        invariant Elements(settled) == (if more then all - Beyond(all, after) else all)
        invariant channels == Left(run, was, Elements(settled)) && result == Tally(run, settled)
        invariant ok && AllDone(run, settled)
        decreases more, |Beyond(all, after)|
      {
        var page;
        ok, result, page, settled := SweepPage(run, after, result, was, all, settled);
        assert forall o <- settled :: o in Elements(settled);
        if !ok {
          return;
        }
        if |page| < batchSize {
          more := false;
        } else {
          after := page[|page| - 1];
        }
      }
    }
  }
}
