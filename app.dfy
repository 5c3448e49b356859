/** The client's state and the steps that change it (App.tsx): the current
    risk, the log, and the memory of spoken messages, updated by one
    analysis round. Speech synthesis is represented by its outputs: the
    items chosen and the text that would be spoken. */
module App {
  import opened Wrappers
  import opened Types
  import opened Seqs
  import opened Memory
  import opened Announce
  import Logbook

  /** Poll delay in milliseconds (1 frame per second). */
  const DefaultInterval := 1000

  /** Poll delay in milliseconds under high risk (2 frames per second). */
  const HighRiskInterval := 500

  const SpokenPrefix := "Spoken: "
  const NoHazardsMessage := "No new significant hazards detected."
  const AnalysisFailedMessage := "Analysis failed or returned empty."

  /** The adaptive delay before the next frame: twice the polling rate
      under high risk. */
  function NextInterval(risk: HazardRisk): (ms: int)
    ensures risk == High ==> ms == HighRiskInterval
    ensures risk != High ==> ms == DefaultInterval
    ensures ms * (if risk == High then 2 else 1) == 1000
  {
    if risk == High then HighRiskInterval else DefaultInterval
  }

  class Assistant {
    var currentRisk: HazardRisk
    var logs: seq<LogEntry>
    var lastSpoken: seq<SpokenEntry>

    /** The memory never holds two entries for one message and the log
        never exceeds its capacity. */
    ghost predicate Valid()
      reads this
    {
      Unique(lastSpoken) && |logs| <= Logbook.Capacity
    }

    constructor ()
      ensures Valid()
      ensures currentRisk == Low && logs == [] && lastSpoken == []
    {
      currentRisk := Low;
      logs := [];
      lastSpoken := [];
    }

    /** Prepend an entry to the log; `id` and `time` are supplied by the caller. */
    method AddLog(message: string, risk: HazardRisk, id: string, time: string)
      requires Valid()
      modifies this`logs
      ensures Valid()
      ensures logs == Logbook.AddLog(old(logs), LogEntry(id, time, message, risk))
    {
      logs := Logbook.AddLog(logs, LogEntry(id, time, message, risk));
    }

    /** The update loop over the spoken items: refresh the entry for each
        message in place, or append one stamped `now`. */
    method RecordSpoken(items: seq<GuidanceItem>, now: int)
      requires Valid()
      modifies this`lastSpoken
      ensures Valid()
      ensures lastSpoken == RecordAll(old(lastSpoken), Messages(items), now)
    {
      ghost var msgs := Messages(items);
      for k := 0 to |items|
        invariant lastSpoken == RecordAll(old(lastSpoken), msgs[..k], now)
      {
        assert msgs[..k + 1][..k] == msgs[..k];
        var existing := IndexOf(lastSpoken, items[k].message);
        if existing > -1 {
          lastSpoken := lastSpoken[existing := lastSpoken[existing].(timestamp := now)];
        } else {
          lastSpoken := lastSpoken + [SpokenEntry(items[k].message, now)];
        }
      }
      assert msgs[..|items|] == msgs;
      RecordAllSpec(old(lastSpoken), msgs, now);
    }

    /** Handle one analysis result: adopt its risk, choose what to speak,
        and update the memory and the log. */
    method ProcessGuidance(data: VisionResponse, now: int, id: string, time: string)
      returns (spoken: seq<GuidanceItem>, text: string)
      requires Valid()
      modifies this
      ensures Valid()
      ensures currentRisk == data.overallRisk
      ensures spoken == ItemsToSpeak(data, old(lastSpoken), now)
      ensures text == SpokenText(spoken)
      ensures lastSpoken == Remember(old(lastSpoken), spoken, now)
      ensures logs == Logbook.AddLog(old(logs),
                        LogEntry(id, time, if spoken != [] then SpokenPrefix + text else NoHazardsMessage,
                                 data.overallRisk))
    {
      currentRisk := data.overallRisk;
      var window := RepeatWindow(data.dontRepeatForSeconds);
      var filtered := FreshGuidance(data.guidance, lastSpoken, now, window);
      spoken := Take(NonInfo(filtered), MaxNewItems);
      var disclaimer := Disclaimer(data.guidance);
      if disclaimer.Some? && DisclaimerDue(lastSpoken, now) {
        spoken := spoken + [disclaimer.value];
      }
      text := "";
      if |spoken| > 0 {
        text := SpokenText(spoken);
        RecordSpoken(spoken, now);
        CleanupUnique(lastSpoken, now);
        lastSpoken := Cleanup(lastSpoken, now);
        AddLog(SpokenPrefix + text, data.overallRisk, id, time);
      } else {
        AddLog(NoHazardsMessage, data.overallRisk, id, time);
      }
    }

    /** The context sent with a frame: the last three remembered messages. */
    method RecentMessages() returns (context: seq<string>)
      ensures context == RecentContext(lastSpoken)
    {
      context := RecentContext(lastSpoken);
    }

    /** One analysis round after the frame is captured: send the context,
        handle the result (`None` when the analyzer failed), and choose the
        delay from the risk the round started with. */
    method AnalyzeRound(result: Option<VisionResponse>, now: int, id: string, time: string)
      returns (context: seq<string>, spoken: seq<GuidanceItem>, text: string, delay: int)
      requires Valid()
      modifies this
      ensures Valid()
      ensures context == RecentContext(old(lastSpoken))
      ensures delay == NextInterval(old(currentRisk))
      ensures result.None? ==>
                && spoken == [] && text == ""
                && currentRisk == old(currentRisk) && lastSpoken == old(lastSpoken)
                && logs == Logbook.AddLog(old(logs), LogEntry(id, time, AnalysisFailedMessage, Low))
      ensures result.Some? ==>
                && currentRisk == result.value.overallRisk
                && spoken == ItemsToSpeak(result.value, old(lastSpoken), now)
                && text == SpokenText(spoken)
                && lastSpoken == Remember(old(lastSpoken), spoken, now)
                && logs == Logbook.AddLog(old(logs),
                             LogEntry(id, time, if spoken != [] then SpokenPrefix + text else NoHazardsMessage,
                                      result.value.overallRisk))
    {
      var risk := currentRisk;
      context := RecentMessages();
      if result.Some? {
        spoken, text := ProcessGuidance(result.value, now, id, time);
      } else {
        spoken, text := [], "";
        AddLog(AnalysisFailedMessage, Low, id, time);
      }
      delay := NextInterval(risk);
    }
  }
}
