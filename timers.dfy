/**
 * The countdown behind a timer card: the once-a-second tick and the
 * start/stop button. The card's timer is bound to an element of the view
 * model's timer list, so the card updates that element in place.
 */
module Timers {
  import opened Models
  import opened ViewModel
  import Seqs

  /**
   * One firing of the repeating one-second timer: while time remains it
   * counts down by one second; at zero the timer stops and is rewound to its
   * full duration.
   */
  function Tick(t: TimerModel): (r: TimerModel)
    ensures r.id == t.id && r.title == t.title && r.duration == t.duration
    ensures t.timeRemaining > 0 ==> r.timeRemaining == t.timeRemaining - 1 && r.isRunning == t.isRunning
    ensures t.timeRemaining <= 0 ==> !r.isRunning && r.timeRemaining == t.duration
    ensures TimerInRange(t) ==> TimerInRange(r)
  {
    if t.timeRemaining > 0 then t.(timeRemaining := t.timeRemaining - 1)
    else t.(isRunning := false, timeRemaining := t.duration)
  }

  /** `n` consecutive ticks. */
  function Ticks(t: TimerModel, n: nat): TimerModel
    decreases n
  {
    if n == 0 then t else Ticks(Tick(t), n - 1)
  }

  /** However many ticks fire, the remaining time stays between zero and the duration. */
  lemma {:induction false} TicksKeepRange(t: TimerModel, n: nat)
    requires TimerInRange(t)
    ensures TimerInRange(Ticks(t, n))
    decreases n
  {
    if n > 0 {
      TicksKeepRange(Tick(t), n - 1);
    }
  }

  /** Up to the remaining time, `n` ticks take exactly `n` seconds off and keep the timer running. */
  lemma {:induction false} TicksCountDown(t: TimerModel, n: nat)
    requires n <= t.timeRemaining
    ensures Ticks(t, n) == t.(timeRemaining := t.timeRemaining - n)
    decreases n
  {
    if n > 0 {
      TicksCountDown(Tick(t), n - 1);
    }
  }

  /** The tick after the countdown reaches zero stops the timer and rewinds it. */
  lemma TicksFinish(t: TimerModel)
    requires t.timeRemaining >= 0
    ensures Ticks(t, t.timeRemaining + 1) == t.(isRunning := false, timeRemaining := t.duration)
  {
    TicksCountDown(t, t.timeRemaining);
    TicksAdd(t, t.timeRemaining, 1);
  }

  lemma {:induction false} TicksAdd(t: TimerModel, m: nat, n: nat)
    ensures Ticks(t, m + n) == Ticks(Ticks(t, m), n)
    decreases m
  {
    if m > 0 {
      TicksAdd(Tick(t), m - 1, n);
    }
  }

  /**
   * A `TimerCard`: its timer is `viewModel.timers[index]`, and `scheduled`
   * says whether its repeating one-second timer is live.
   */
  class TimerCard {
    const viewModel: AppViewModel
    const index: nat
    var scheduled: bool

    constructor (viewModel: AppViewModel, index: nat)
      ensures this.viewModel == viewModel && this.index == index && !scheduled
    {
      this.viewModel := viewModel;
      this.index := index;
      scheduled := false;
    }

    predicate Valid()
      reads this, viewModel
    {
      viewModel.Valid() && index < |viewModel.timers|
    }

    /** The body of the repeating timer's closure; at zero it also invalidates the timer. */
    method OnTick()
      requires Valid()
      modifies this, viewModel
      ensures Valid()
      ensures viewModel.timers == old(viewModel.timers)[index := Tick(old(viewModel.timers[index]))]
      ensures scheduled == (old(scheduled) && old(viewModel.timers[index]).timeRemaining > 0)
      ensures viewModel.recipes == old(viewModel.recipes) && viewModel.notes == old(viewModel.notes)
      ensures viewModel.badges == old(viewModel.badges) && viewModel.viewedRecipesCount == old(viewModel.viewedRecipesCount)
    {
      var timer := viewModel.timers[index];
      if timer.timeRemaining > 0 {
        timer := timer.(timeRemaining := timer.timeRemaining - 1);
      } else {
        scheduled := false;
        timer := timer.(isRunning := false);
        timer := timer.(timeRemaining := timer.duration);
      }
      assert TimerInRange(timer);
      viewModel.timers := viewModel.timers[index := timer];
    }

    /**
     * The Start/Stop button: a running timer is stopped through the view model
     * and its repeating timer invalidated; an idle one is started through the
     * view model and a repeating timer scheduled. The card then writes the
     * running flag to its own element.
     */
    method ButtonTapped()
      requires Valid()
      modifies this, viewModel
      ensures Valid()
      ensures var t := old(viewModel.timers[index]);
        if t.isRunning then
          viewModel.timers == StoppedTimers(old(viewModel.timers), t.id)[index := StoppedTimers(old(viewModel.timers), t.id)[index].(isRunning := false)]
          && !scheduled
        else
          viewModel.timers == StartedTimers(old(viewModel.timers), t.id)[index := StartedTimers(old(viewModel.timers), t.id)[index].(isRunning := true)]
          && scheduled
      ensures viewModel.recipes == old(viewModel.recipes) && viewModel.notes == old(viewModel.notes)
      ensures viewModel.badges == old(viewModel.badges) && viewModel.viewedRecipesCount == old(viewModel.viewedRecipesCount)
    {
      var t := viewModel.timers[index];
      if t.isRunning {
        viewModel.StopTimer(t.id);
        scheduled := false;
        viewModel.timers := viewModel.timers[index := viewModel.timers[index].(isRunning := false)];
      } else {
        viewModel.StartTimer(t.id);
        viewModel.timers := viewModel.timers[index := viewModel.timers[index].(isRunning := true)];
        scheduled := true;
      }
      assert TimerInRange(viewModel.timers[index]);
    }
  }

  /** With distinct ids, the card's own write after starting or stopping changes nothing more. */
  lemma CardWriteIsRedundant(timers: seq<TimerModel>, index: nat)
    requires index < |timers|
    requires forall i, j :: 0 <= i < j < |timers| ==> timers[i].id != timers[j].id
    ensures var id := timers[index].id;
      StartedTimers(timers, id)[index := StartedTimers(timers, id)[index].(isRunning := true)] == StartedTimers(timers, id)
      && StoppedTimers(timers, id)[index := StoppedTimers(timers, id)[index].(isRunning := false)] == StoppedTimers(timers, id)
  {
    var id := timers[index].id;
    assert IsFirstMatchAt(timers, index, id);
  }

  predicate IsFirstMatchAt(timers: seq<TimerModel>, index: nat, id: Uuid) {
    Seqs.IsFirstMatch(timers, index, (t: TimerModel) => TimerHasId(id, t))
  }
}
