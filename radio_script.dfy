/**
 * The team-radio script of the engineer-radio panel: 44 timed messages between
 * the race engineer ("GP") and the driver ("Max"), the `find` that picks the
 * message due at a given race second, and the log that playing the script up to
 * a given second produces.
 */
module RadioScript {
  import opened Wrappers

  /** One scripted message: the race second it is due at, the speaker, the text. */
  datatype RadioMessage = RadioMessage(time: nat, from: string, message: string)

  /** The script, in the order it is written. */
  const Script: seq<RadioMessage> :=
    [
      RadioMessage(2, "GP", "Okay Sherry, formation lap. Box, box, box at the end of the lap. Remember procedure."),
      RadioMessage(10, "Max", "Copy, box at the end. Starting procedure."),
      RadioMessage(17, "GP", "Lights out and away we go! Good start, good start!"),
      RadioMessage(22, "Max", "Tires are not ready yet. I'm just sliding around."),
      RadioMessage(27, "GP", "Copy Sherry. Push now, push now. We need to build gap."),
      RadioMessage(34, "Max", "Understood. Pushing. Car feels better now."),
      RadioMessage(45, "GP", "So Sherry, box this lap, box this lap. Confirm."),
      RadioMessage(50, "Max", "Are we sure? Tires still feel okay."),
      RadioMessage(55, "Max", "Stop inventing!"),
      RadioMessage(58, "GP", "Yes, positive. Undercut is strong. Box, box."),
      RadioMessage(62, "Max", "Okay, coming in."),
      RadioMessage(65, "GP", "2.1 second stop! Good job guys. Out in P2, 3.2 seconds behind Leclerc."),
      RadioMessage(70, "Max", "Copy. Push now to catch him?"),
      RadioMessage(74, "GP", "Affirmative. Push hard. He's on older tires."),
      RadioMessage(78, "Max", "How's the gap? I'm pushing like hell here."),
      RadioMessage(83, "GP", "Gap is 1.8 seconds. You're gaining three tenths per lap."),
      RadioMessage(88, "Max", "Copy. Car is on rails now. Feeling good."),
      RadioMessage(93, "Max", "This is unbelievable driving."),
      RadioMessage(97, "GP", "DRS available next lap. You're within one second."),
      RadioMessage(103, "Max", "I see him. Going for the move into turn 1."),
      RadioMessage(109, "GP", "Clean overtake! P1! P1 Sherry! Great job!"),
      RadioMessage(114, "Max", "Copy. What's the gap behind?"),
      RadioMessage(120, "GP", "Gap to P2 is 2.8 seconds. Managing pace. Your tires need to last 25 more laps."),
      RadioMessage(128, "Max", "Understood. These tires are holding on well."),
      RadioMessage(140, "GP", "Watch for Hamilton behind. He's on newer tires and pushing."),
      RadioMessage(145, "Max", "Copy. I can see him in the mirrors. No issues."),
      RadioMessage(160, "GP", "Okay Sherry, slight change of plan. We're going to two-stop. Box in 5 laps."),
      RadioMessage(165, "Max", "Two-stop? Are you sure? I can manage these to the end."),
      RadioMessage(170, "Max", "We know what we're doing."),
      RadioMessage(174, "GP", "Positive. Safety car window. Fresh tires will give us safety margin."),
      RadioMessage(180, "Max", "Okay, understood. Preparing for box."),
      RadioMessage(186, "GP", "Out in P1! 15 laps to go. Push to build gap, then we manage."),
      RadioMessage(195, "Max", "Gap is 5 seconds. Conserving tires now."),
      RadioMessage(199, "Max", "We need to box, these tires are dead."),
      RadioMessage(205, "GP", "Copy. Managing pace is good. Keep 2.5 second gap."),
      RadioMessage(220, "GP", "5 laps to go Shahryar. You're doing great job."),
      RadioMessage(230, "Max", "How's everything looking? Fuel, tires?"),
      RadioMessage(235, "Max", "I can't keep the car on track."),
      RadioMessage(239, "GP", "All good. Fuel is positive, tires have margin. Just bring it home."),
      RadioMessage(246, "Max", "What a joke!"),
      RadioMessage(249, "GP", "Final lap Shahryar! Great drive."),
      RadioMessage(255, "Max", "Copy. Thank you guys. Great strategy."),
      RadioMessage(262, "GP", "P1 Sherry! P1! Incredible drive. Box for parc ferme. Yayyy"),
      RadioMessage(270, "Max", "Yesss! Great job everyone! Amazing work.")
    ]

  /** Every time is later than the one before it. */
  predicate Increasing(s: seq<RadioMessage>)
  {
    forall i, j :: 0 <= i < j < |s| ==> s[i].time < s[j].time
  }

  /** The script holds 44 messages, the first due at second 2 and the last at 270. */
  lemma ScriptLength()
    ensures |Script| == 44
    ensures Script[0].time == 2 && Script[43].time == 270
  {
  }

  /** Every time in the script is later than the one before it, so no two are equal. */
  lemma ScriptIncreasing()
    ensures Increasing(Script)
  {
    assert forall i :: 0 <= i < |Script| - 1 ==> Script[i].time < Script[i + 1].time;
    AdjacentIncreasing(Script);
  }

  /** Only the engineer ("GP") and the driver ("Max") speak. */
  lemma ScriptSpeakers()
    ensures forall i :: 0 <= i < |Script| ==> Script[i].from == "GP" || Script[i].from == "Max"
  {
  }

  /** Every message is due between second 2 and second 270. */
  lemma ScriptTimes()
    ensures forall i :: 0 <= i < |Script| ==> 2 <= Script[i].time <= 270
  {
    ScriptIncreasing();
    ScriptLength();
  }

  /** Times that rise from each message to the next rise across the whole sequence. */
  lemma {:induction false} AdjacentIncreasing(s: seq<RadioMessage>)
    requires forall i :: 0 <= i < |s| - 1 ==> s[i].time < s[i + 1].time
    ensures Increasing(s)
  {
    if |s| > 1 {
      var rest := s[1..];
      assert forall i :: 0 <= i < |rest| ==> rest[i] == s[i + 1];
      AdjacentIncreasing(rest);
      forall i, j | 0 <= i < j < |s|
        ensures s[i].time < s[j].time
      {
        if i > 0 {
          assert rest[i - 1].time < rest[j - 1].time;
        } else if j > 1 {
          assert rest[0].time < rest[j - 1].time;
        }
      }
    }
  }

  /** `find(msg => msg.time === t)`: the first message due at second t, if any. */
  function Find(s: seq<RadioMessage>, t: nat): (r: Option<RadioMessage>)
    ensures r.Some? ==> r.value.time == t
  {
    if s == [] then None
    else if s[0].time == t then Some(s[0])
    else Find(s[1..], t)
  }

  /**
   * `find` yields nothing exactly when no message is due at t, and otherwise
   * the message at the first index due at t.
   */
  lemma {:induction false} FindFirst(s: seq<RadioMessage>, t: nat)
    ensures Find(s, t).None? <==> forall i :: 0 <= i < |s| ==> s[i].time != t
    ensures Find(s, t).Some? ==>
      exists i :: 0 <= i < |s| && s[i] == Find(s, t).value && (forall j :: 0 <= j < i ==> s[j].time != t)
  {
    if s != [] {
      FindFirst(s[1..], t);
      assert forall i :: 1 <= i < |s| ==> s[i] == s[1..][i - 1];
      if s[0].time != t && Find(s, t).Some? {
        var i :| 0 <= i < |s[1..]| && s[1..][i] == Find(s, t).value
          && (forall j :: 0 <= j < i ==> s[1..][j].time != t);
        assert s[i + 1] == Find(s, t).value;
      }
    }
  }

  /** The messages due at or before second t, in script order. */
  function UpTo(s: seq<RadioMessage>, t: nat): (r: seq<RadioMessage>)
    ensures |r| <= |s|
  {
    if s == [] then []
    else (if s[0].time <= t then [s[0]] else []) + UpTo(s[1..], t)
  }

  /** The messages due by t are exactly the script's messages whose time is at most t. */
  lemma {:induction false} UpToMembers(s: seq<RadioMessage>, t: nat)
    ensures forall m :: m in UpTo(s, t) <==> m in s && m.time <= t
  {
    if s != [] {
      UpToMembers(s[1..], t);
      assert s == [s[0]] + s[1..];
    }
  }

  /** Messages written later in an increasing script are due later. */
  lemma {:induction false} UpToIncreasing(s: seq<RadioMessage>, t: nat)
    requires Increasing(s)
    ensures Increasing(UpTo(s, t))
  {
    if s != [] {
      UpToIncreasing(s[1..], t);
      UpToMembers(s[1..], t);
      assert forall m :: m in UpTo(s[1..], t) ==> m in s[1..];
      assert forall m :: m in s[1..] ==> s[0].time < m.time;
    }
  }

  /**
   * One second later the messages due are those due now plus the one `find`
   * picks for the new second: this is what lets a tick append at most one message.
   */
  lemma {:induction false} UpToStep(s: seq<RadioMessage>, t: nat)
    requires Increasing(s)
    ensures UpTo(s, t + 1) == UpTo(s, t) + OptionToSeq(Find(s, t + 1))
  {
    if s != [] {
      var rest := s[1..];
      assert Increasing(rest) by {
        assert forall i :: 0 <= i < |rest| ==> rest[i] == s[i + 1];
      }
      if s[0].time <= t {
        UpToStep(rest, t);
        assert UpTo(s, t + 1) == [s[0]] + UpTo(rest, t + 1);
      } else {
        assert forall i :: 0 <= i < |rest| ==> rest[i] == s[i + 1];
        FindFirst(s, t + 1);
        NoneDue(rest, t + 1);
        NoneDue(rest, t);
        if s[0].time == t + 1 {
          assert UpTo(s, t + 1) == [s[0]];
        } else {
          NoneDue(s, t + 1);
          NoneDue(s, t);
        }
      }
    }
  }

  /** When every message is later than t, none is due by t. */
  lemma NoneDue(s: seq<RadioMessage>, t: nat)
    requires forall i :: 0 <= i < |s| ==> s[i].time > t
    ensures UpTo(s, t) == []
  {
    UpToMembers(s, t);
  }

  /** By second 270 the whole script is due, and in script order. */
  lemma WholeScriptBy270()
    ensures UpTo(Script, 270) == Script
  {
    ScriptTimes();
    AllDue(Script, 270);
  }

  /** When no message is later than t, all are due by t. */
  lemma {:induction false} AllDue(s: seq<RadioMessage>, t: nat)
    requires forall i :: 0 <= i < |s| ==> s[i].time <= t
    ensures UpTo(s, t) == s
  {
    if s != [] {
      assert forall i :: 0 <= i < |s[1..]| ==> s[1..][i] == s[i + 1];
      AllDue(s[1..], t);
    }
  }

  /** Before the first message's second nothing is due. */
  lemma NothingBefore(t: nat)
    requires t < 2
    ensures UpTo(Script, t) == []
  {
    ScriptTimes();
    NoneDue(Script, t);
  }
}
