/**
 * The engineer-radio panel while the race runs: a race clock that advances one
 * second per tick, the log of script messages shown so far, the set of message
 * times already emitted, and the flag that keeps a new message from being spoken
 * while another one still is.
 */
module EngineerRadio {
  import opened Wrappers
  import opened RadioScript
  import opened VoiceSelect

  /** A message as shown in the log, with the id it was given when it arrived. */
  datatype LoggedMessage = LoggedMessage(entry: RadioMessage, id: real)

  /** A speech request: the text, the chosen voice, and the speaking parameters. */
  datatype Utterance = Utterance(text: string, voice: Option<Voice>, rate: real, pitch: real, volume: real)

  /** The script messages a log holds, in log order. */
  function Entries(log: seq<LoggedMessage>): (r: seq<RadioMessage>)
    ensures |r| == |log| && forall i :: 0 <= i < |log| ==> r[i] == log[i].entry
  {
    if log == [] then [] else Entries(log[..|log| - 1]) + [log[|log| - 1].entry]
  }

  /** The times of the messages in a log. */
  function Times(log: seq<LoggedMessage>): (r: set<nat>)
    ensures forall i :: 0 <= i < |log| ==> log[i].entry.time in r
  {
    if log == [] then {} else Times(log[..|log| - 1]) + {log[|log| - 1].entry.time}
  }

  /**
   * The speech request for a message: the engineer speaks at rate 1.3 and pitch
   * 0.9, anyone else at rate 1.25 and pitch 1.0, always at volume 0.8, in the
   * voice `getMaleVoice("en-US")` picks.
   */
  function Speech(m: RadioMessage, voices: seq<Voice>): (u: Utterance)
    ensures u.text == m.message && u.volume == 0.8 && u.voice == GetMaleVoice(voices, "en-US")
    ensures m.from == "GP" <==> u.rate == 1.3
    ensures m.from == "GP" <==> u.pitch == 0.9
    ensures m.from != "GP" <==> u.rate == 1.25 && u.pitch == 1.0
  {
    var voice := GetMaleVoice(voices, "en-US");
    if m.from == "GP" then Utterance(m.message, voice, 1.3, 0.9, 0.8)
    else Utterance(m.message, voice, 1.25, 1.0, 0.8)
  }

  /** Appending a message to a log appends its script message and adds its time. */
  lemma LogAppend(log: seq<LoggedMessage>, m: LoggedMessage)
    ensures Entries(log + [m]) == Entries(log) + [m.entry]
    ensures Times(log + [m]) == Times(log) + {m.entry.time}
  {
    assert (log + [m])[..|log|] == log;
  }

  /** A script can be played when its times increase and none is due before the first tick. */
  ghost predicate Playable(script: seq<RadioMessage>)
  {
    Increasing(script) && forall i :: 0 <= i < |script| ==> script[i].time > 0
  }

  /**
   * The state of a player of `script` at second t: the log holds exactly the
   * messages due by t, in script order, and the emitted set holds exactly their
   * times, one per logged message.
   */
  ghost predicate Playing(script: seq<RadioMessage>, t: nat, log: seq<LoggedMessage>, spoken: set<nat>)
  {
    && Playable(script)
    && Entries(log) == UpTo(script, t)
    && spoken == Times(log)
    && |log| == |spoken|
    && (forall x :: x in spoken ==> x <= t)
  }

  /**
   * One more second of play: the message `find` picks for it has not been
   * emitted yet, and logging it (or nothing, when there is none) keeps the
   * player's state.
   */
  lemma PlayStep(script: seq<RadioMessage>, t: nat, log: seq<LoggedMessage>, spoken: set<nat>, id: real)
    requires Playing(script, t, log, spoken)
    ensures Find(script, t + 1).None? ==> Playing(script, t + 1, log, spoken)
    ensures Find(script, t + 1).Some? ==>
      var m := Find(script, t + 1).value;
      && m.time !in spoken
      && Playing(script, t + 1, log + [LoggedMessage(m, id)], spoken + {m.time})
  {
    UpToStep(script, t);
    match Find(script, t + 1)
    case None =>
      assert UpTo(script, t) + [] == UpTo(script, t);
    case Some(m) =>
      var log' := log + [LoggedMessage(m, id)];
      LogAppend(log, LoggedMessage(m, id));
      assert Entries(log') == UpTo(script, t + 1);
      assert Times(log') == spoken + {m.time};
  }

  /** The panel's script can be played. */
  lemma ScriptPlayable()
    ensures Playable(Script)
  {
    ScriptIncreasing();
    ScriptTimes();
  }

  /** What the panel holds while the race runs: clock, log, emitted times, speaking flag. */
  datatype Panel = Panel(raceTime: nat, log: seq<LoggedMessage>, spoken: set<nat>, speaking: bool)

  /** The outcome of one second: the panel after it and the speech request it made, if any. */
  datatype Step = Step(next: Panel, said: Option<Utterance>)

  /**
   * One second of race: the clock advances; the message `find` picks for the
   * new second, if its time has not been emitted, is logged with the given id
   * and its time recorded, and it is spoken only if nothing is being spoken.
   */
  function Advance(script: seq<RadioMessage>, p: Panel, voices: seq<Voice>, id: real): (s: Step)
    ensures s.next.raceTime == p.raceTime + 1
    ensures s.said.Some? ==> !p.speaking && s.next.speaking
    ensures |p.log| <= |s.next.log| <= |p.log| + 1
  {
    var t := p.raceTime + 1;
    var due := Find(script, t);
    if due.Some? && due.value.time !in p.spoken then
      Step(Panel(t, p.log + [LoggedMessage(due.value, id)], p.spoken + {due.value.time}, true),
           if p.speaking then None else Some(Speech(due.value, voices)))
    else
      Step(Panel(t, p.log, p.spoken, p.speaking), None)
  }

  /**
   * While the panel plays a playable script, each second logs exactly the
   * script message due at that second, if any, and the panel keeps playing.
   */
  lemma AdvancePlaying(script: seq<RadioMessage>, p: Panel, voices: seq<Voice>, id: real)
    requires Playing(script, p.raceTime, p.log, p.spoken)
    ensures var s := Advance(script, p, voices, id);
      Playing(script, s.next.raceTime, s.next.log, s.next.spoken)
    ensures var s := Advance(script, p, voices, id);
      Entries(s.next.log) == Entries(p.log) + OptionToSeq(Find(script, p.raceTime + 1))
  {
    PlayStep(script, p.raceTime, p.log, p.spoken, id);
    UpToStep(script, p.raceTime);
  }

  /**
   * The message due at a second is never one already emitted, so it is always
   * logged; it is spoken exactly when nothing else is being spoken, and then
   * the speaking flag is raised.
   */
  lemma AdvanceSpeaks(script: seq<RadioMessage>, p: Panel, voices: seq<Voice>, id: real)
    requires Playing(script, p.raceTime, p.log, p.spoken)
    ensures var s := Advance(script, p, voices, id); var due := Find(script, p.raceTime + 1);
      && (due.Some? ==> |s.next.log| == |p.log| + 1)
      && (s.said.Some? <==> due.Some? && !p.speaking)
      && (s.said.Some? ==> s.said.value == Speech(due.value, voices))
      && s.next.speaking == (p.speaking || due.Some?)
  {
    PlayStep(script, p.raceTime, p.log, p.spoken, id);
  }

  class RadioPlayer {
    /** The script being played; the panel plays `Script`. */
    const script: seq<RadioMessage>
    var raceTime: nat
    var log: seq<LoggedMessage>
    var spoken: set<nat>
    var speaking: bool

    /**
     * The log holds exactly the script messages due by the race clock, in script
     * order, and the emitted set holds exactly their times.
     */
    ghost predicate Valid()
      reads this
    {
      Playing(script, raceTime, log, spoken)
    }

    /** The fields as a panel value. */
    function State(): (p: Panel)
      reads this
      ensures p.raceTime == raceTime && p.log == log && p.spoken == spoken && p.speaking == speaking
    {
      Panel(raceTime, log, spoken, speaking)
    }

    /** The panel before the race: clock at 0, nothing logged, nothing emitted, silent. */
    constructor(script: seq<RadioMessage>)
      requires Playable(script)
      ensures Valid() && this.script == script
      ensures raceTime == 0 && log == [] && spoken == {} && !speaking
    {
      this.script := script;
      raceTime := 0;
      log := [];
      spoken := {};
      speaking := false;
      new;
      NoneDue(script, 0);
    }

    /** One second of race, as `Advance` describes it; the player stays valid. */
    method Tick(voices: seq<Voice>, id: real) returns (said: Option<Utterance>)
      requires Valid()
      modifies this
      ensures Valid()
      ensures var s := Advance(script, old(State()), voices, id);
        State() == s.next && said == s.said
    {
      var s := Advance(script, State(), voices, id);
      AdvancePlaying(script, State(), voices, id);
      raceTime, log, spoken, speaking := s.next.raceTime, s.next.log, s.next.spoken, s.next.speaking;
      said := s.said;
    }

    /** The end or the failure of the current speech clears the speaking flag. */
    method Finished()
      requires Valid()
      modifies this
      ensures Valid()
      ensures speaking == false
      ensures raceTime == old(raceTime) && log == old(log) && spoken == old(spoken)
    {
      speaking := false;
    }

    /**
     * Stopping the race: clock back to 0, log emptied, emitted set cleared,
     * silent. It runs from any state; only the fixed script must be playable.
     */
    method Stop()
      requires Playable(script)
      modifies this
      ensures Valid()
      ensures raceTime == 0 && log == [] && spoken == {} && !speaking
    {
      raceTime := 0;
      log := [];
      spoken := {};
      speaking := false;
      NoneDue(script, raceTime);
    }
  }

  /** No message is logged twice: the log's times strictly increase. */
  lemma LogTimesIncrease(p: RadioPlayer)
    requires p.Valid()
    ensures forall i, j :: 0 <= i < j < |p.log| ==> p.log[i].entry.time < p.log[j].entry.time
  {
    UpToIncreasing(p.script, p.raceTime);
    assert forall i :: 0 <= i < |p.log| ==> p.log[i].entry == UpTo(p.script, p.raceTime)[i];
  }

  /** Once the clock reaches 270 the log holds all 44 messages, in script order. */
  lemma WholeRaceLogged(p: RadioPlayer)
    requires p.Valid() && p.script == Script && p.raceTime >= 270
    ensures Entries(p.log) == Script && |p.log| == 44 && |p.spoken| == 44
  {
    ScriptTimes();
    ScriptLength();
    AllDue(Script, p.raceTime);
  }
}
