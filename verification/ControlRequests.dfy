/**
 Which controls may be sent, against what the reducer accepts of them (`steer`, `recover` and `redirect` of
 ext-pi/src/supervisor.ts).
 */
module ControlRequests {
  import opened Prelude
  import opened Snapshots
  import opened Fields
  import opened Reducer
  import opened Controls
  import History
  import Utf8

  /** The events with which the runtime reports that a control took effect. */
  function SteerEvent(id: string, number: string, timing: Timing, controlId: string, text: string): Event {
    AttemptSteered(Some(id), Some(number), Some(History.TimingName(timing)), Some(controlId), Some(text))
  }

  function RecoverEvent(id: string, choice: Choice, target: Option<string>, controlId: string): Event {
    RecoveryChosen(Some(id), Some(History.ChoiceName(choice)), target, Some(controlId))
  }

  function RedirectEvent(id: string, target: string, controlId: string): Event {
    OccurrenceRedirected(Some(id), Some(target), Some(controlId))
  }

  /** Identifiers as the wire spells them. */
  predicate IsId(id: string) { IsDecimal(id) && DigitsValue(id) <= MAX_WORD64 }

  predicate IsNumber(number: string) { IsDecimal(number) && DigitsValue(number) <= MAX_WORD32 }

  lemma IdIsRead(id: string)
    requires IsId(id)
    ensures OccurrenceId(Some(id)) == Ok(id)
  {
    hide IsDecimal, DigitsValue;
  }

  lemma KeyIsRead(id: string, number: string)
    requires IsNumber(number)
    ensures AttemptId(id, Some(number)) == Ok(id + ":" + number)
    ensures (id + ":" + number)[|id| + 1..] == number && id + ":" <= id + ":" + number
  {
    hide IsDecimal, DigitsValue;
  }

  /**
   While steers are left, a steer may be sent exactly when the run is open, its text is neither blank nor larger than 64
   KiB, and the reducer would accept the report of it.
   */
  lemma SteerExactly(s: Snapshot, id: string, number: string, text: string, timing: Timing, controlId: string,
                     version: int)
    requires IsId(id) && IsNumber(number) && SteerCount(s) < MAX_STEERS
    ensures Allowed(s, SteerRequest(id, id + ":" + number, text, timing))
            <==> !IsTerminal(s.status) && !IsBlank(text) && |Utf8.Encode(text)| <= 65_536
                 && Apply(s, SteerEvent(id, number, timing, controlId, text), version).Ok?
  {
    hide IsBlank, Utf8.Encode, TotalOver, IsDecimal, DigitsValue, AttemptId, OccurrenceId, IsTerminal,
         HasRunningAttempt, StartRun, StartOccurrence,
         OrderTrace, Acknowledge, CompleteRun, FailRun;
    IdIsRead(id);
    KeyIsRead(id, number);
    TimingIsRead(timing);
  }

  lemma TimingIsRead(timing: Timing)
    ensures TimingOf(Some(History.TimingName(timing))) == Ok(timing)
  {
  }

  /**
   A recovery may be asked for exactly when the run is open, the occurrence waits for recovery and the choice was
   offered. That is when the reducer would accept the report for some target, unless a choice was made already: it then
   accepts none.
   */
  lemma RecoverExactly(s: Snapshot, id: string, choice: Choice, controlId: string, version: int)
    requires IsId(id)
    ensures var accepted := exists target :: Apply(s, RecoverEvent(id, choice, target, controlId), version).Ok?;
            var chosen := id in s.occurrences.at && s.occurrences.at[id].recovery.Some?
              && s.occurrences.at[id].recovery.value.chosen.Some?;
            && (accepted && !IsTerminal(s.status) ==> Allowed(s, RecoverRequest(id, choice)))
            && (Allowed(s, RecoverRequest(id, choice)) ==> accepted || chosen)
            && (chosen ==> !accepted)
            && (chosen && s.occurrences.at[id].state.OccRecovering? && !IsTerminal(s.status) ==>
                  (Allowed(s, RecoverRequest(id, choice))
                   <==> exists target :: Offer(choice, target) in s.occurrences.at[id].recovery.value.choices))
  {
    hide IsTerminal, IsDecimal, DigitsValue, OccurrenceId, TotalOver, HasRunningAttempt;
    IdIsRead(id);
    forall target: Option<string>
      ensures Apply(s, RecoverEvent(id, choice, target, controlId), version).Ok?
              <==> && id in s.occurrences.at && s.occurrences.at[id].recovery.Some?
                   && s.occurrences.at[id].state.OccRecovering?
                   && s.occurrences.at[id].recovery.value.chosen.None?
                   && Offer(choice, target) in s.occurrences.at[id].recovery.value.choices
    {
      RecoverReport(s, id, choice, target, controlId, version);
    }
    if Allowed(s, RecoverRequest(id, choice)) && s.occurrences.at[id].recovery.value.chosen.None? {
      var offer :| offer in s.occurrences.at[id].recovery.value.choices && offer.choice == choice;
      assert offer == Offer(choice, offer.target);
      assert Apply(s, RecoverEvent(id, choice, offer.target, controlId), version).Ok?;
    }
    if Allowed(s, RecoverRequest(id, choice)) {
      var offer :| offer in s.occurrences.at[id].recovery.value.choices && offer.choice == choice;
      assert offer == Offer(choice, offer.target);
    }
  }

  lemma RecoverReport(s: Snapshot, id: string, choice: Choice, target: Option<string>, controlId: string, version: int)
    requires IsId(id)
    ensures Apply(s, RecoverEvent(id, choice, target, controlId), version).Ok?
            <==> && id in s.occurrences.at && s.occurrences.at[id].recovery.Some?
                 && s.occurrences.at[id].state.OccRecovering?
                 && s.occurrences.at[id].recovery.value.chosen.None?
                 && Offer(choice, target) in s.occurrences.at[id].recovery.value.choices
  {
    hide IsDecimal, DigitsValue, OccurrenceId, TotalOver, HasRunningAttempt;
    IdIsRead(id);
    ChoiceIsRead(choice);
  }

  lemma ChoiceIsRead(choice: Choice)
    ensures ChoiceNamed(History.ChoiceName(choice)) == Some(choice)
  {
  }

  /**
   A redirect may be sent in an open run exactly when the reducer would accept the report of it, but for two
   differences: a blank target is not sent to an attempt that runs, and a target that a closed dispatch did not reserve
   is.
   */
  lemma RedirectExactly(s: Snapshot, id: string, target: string, controlId: string, version: int)
    requires IsId(id) && id in s.occurrences.at
    ensures var o := s.occurrences.at[id];
            var open := o.dispatch.Some? && o.dispatch.value.open;
            var accepted := Apply(s, RedirectEvent(id, target, controlId), version).Ok?;
            var closedOut := o.dispatch.Some? && !o.dispatch.value.open && target !in o.dispatch.value.targets;
            Allowed(s, RedirectRequest(id, target))
            <==> !IsTerminal(s.status)
                 && (if open then accepted
                     else !IsBlank(target) && (accepted || (closedOut && HasRunningAttempt(o.attempts))))
  {
    hide IsTerminal, IsDecimal, DigitsValue, OccurrenceId, TotalOver, IsBlank, HasRunningAttempt, FirstRunning;
    IdIsRead(id);
    RunningIs(s.occurrences.at[id].attempts);
  }

  lemma RunningIs(attempts: Table<Attempt>)
    ensures FirstRunning(attempts.order, attempts.at).Some? <==> HasRunningAttempt(attempts)
  {
  }
}
