/** The announcement decision of `processGuidance` (App.tsx): which items of
    one analysis result are spoken, given the memory of recently spoken
    messages and the current time `now` in milliseconds. */
module Announce {
  import opened Wrappers
  import opened Types
  import opened Seqs
  import opened Memory

  /** Repeat window used when the result's hint is 0 or missing. */
  const DefaultRepeatSeconds := 5

  /** At most this many new non-`info` items are spoken per result. */
  const MaxNewItems := 2

  /** The disclaimer is repeated once its last mention is older than this. */
  const DisclaimerInterval := 60000

  /** A remembered message containing this text marks the last disclaimer. */
  const DisclaimerMarker := "Use caution"

  /** Separator between the spoken messages. */
  const Separator := ". "

  /** The repeat window in milliseconds: the hint in seconds times 1000,
      falling back to 5 s when the hint is 0 or missing. */
  function RepeatWindow(seconds: Option<int>): (w: int)
    ensures seconds == None || seconds == Some(0) ==> w == DefaultRepeatSeconds * 1000
    ensures seconds.Some? && seconds.value != 0 ==> w == seconds.value * 1000
  {
    (if seconds.None? || seconds.value == 0 then DefaultRepeatSeconds else seconds.value) * 1000
  }

  /** The first memory entry for `msg` was stamped less than `window`
      milliseconds before `now`. */
  predicate RecentlySpoken(mem: seq<SpokenEntry>, msg: string, now: int, window: int)
    ensures RecentlySpoken(mem, msg, now, window) ==>
              exists i :: 0 <= i < |mem| && mem[i].message == msg && now - mem[i].timestamp < window
    ensures (forall i :: 0 <= i < |mem| ==> mem[i].message != msg) ==> !RecentlySpoken(mem, msg, now, window)
  {
    var last := Lookup(mem, msg);
    last.Some? && now - last.value.timestamp < window
  }

  /** In a duplicate-free memory, "recently spoken" means that some entry
      for the message is younger than the window. */
  lemma RecentlySpokenIff(mem: seq<SpokenEntry>, msg: string, now: int, window: int)
    requires Unique(mem)
    ensures RecentlySpoken(mem, msg, now, window) <==>
            exists i :: 0 <= i < |mem| && mem[i].message == msg && now - mem[i].timestamp < window
  {
    if exists i :: 0 <= i < |mem| && mem[i].message == msg && now - mem[i].timestamp < window {
      var i :| 0 <= i < |mem| && mem[i].message == msg && now - mem[i].timestamp < window;
      LookupUnique(mem, i);
    }
  }

  /** The dedup filter: the items of `guidance` not recently spoken. */
  function FreshGuidance(guidance: seq<GuidanceItem>, mem: seq<SpokenEntry>, now: int, window: int)
    : (r: seq<GuidanceItem>)
    ensures forall item :: item in r <==> item in guidance && !RecentlySpoken(mem, item.message, now, window)
  {
    Filter(guidance, (item: GuidanceItem) => !RecentlySpoken(mem, item.message, now, window))
  }

  /** The dedup filter keeps the surviving items in their original order. */
  lemma FreshGuidanceOrder(a: seq<GuidanceItem>, b: seq<GuidanceItem>, mem: seq<SpokenEntry>, now: int, window: int)
    ensures FreshGuidance(a + b, mem, now, window) ==
            FreshGuidance(a, mem, now, window) + FreshGuidance(b, mem, now, window)
  {
    FilterConcat(a, b, (item: GuidanceItem) => !RecentlySpoken(mem, item.message, now, window));
  }

  /** The items that are not of type `info`, in order. */
  function NonInfo(items: seq<GuidanceItem>): (r: seq<GuidanceItem>)
    ensures forall item :: item in r <==> item in items && item.kind != Info
  {
    Filter(items, (item: GuidanceItem) => item.kind != Info)
  }

  /** The non-`info` items surviving the dedup filter: the candidates for
      announcement. */
  function Candidates(data: VisionResponse, mem: seq<SpokenEntry>, now: int): (r: seq<GuidanceItem>)
    ensures forall item :: item in r <==>
              item in data.guidance && item.kind != Info &&
              !RecentlySpoken(mem, item.message, now, RepeatWindow(data.dontRepeatForSeconds))
  {
    NonInfo(FreshGuidance(data.guidance, mem, now, RepeatWindow(data.dontRepeatForSeconds)))
  }

  /** The first `info` item of the unfiltered guidance: the disclaimer. */
  function Disclaimer(guidance: seq<GuidanceItem>): (r: Option<GuidanceItem>)
    ensures r.None? <==> forall i :: 0 <= i < |guidance| ==> guidance[i].kind != Info
    ensures r.Some? ==> exists k :: 0 <= k < |guidance| && guidance[k] == r.value && r.value.kind == Info &&
                                    forall i :: 0 <= i < k ==> guidance[i].kind != Info
  {
    Find(guidance, (item: GuidanceItem) => item.kind == Info)
  }

  /** The disclaimer is due when no remembered message contains the marker,
      or the first entry that does is more than `DisclaimerInterval` old. */
  predicate DisclaimerDue(mem: seq<SpokenEntry>, now: int)
    ensures DisclaimerDue(mem, now) <==>
      (forall i :: 0 <= i < |mem| ==> !Contains(mem[i].message, DisclaimerMarker)) ||
      (exists k :: 0 <= k < |mem| && Contains(mem[k].message, DisclaimerMarker) &&
                   (forall i :: 0 <= i < k ==> !Contains(mem[i].message, DisclaimerMarker)) &&
                   now - mem[k].timestamp > DisclaimerInterval)
  {
    var last := Find(mem, (e: SpokenEntry) => Contains(e.message, DisclaimerMarker));
    last.None? || now - last.value.timestamp > DisclaimerInterval
  }

  /** The disclaimer is appended exactly when the result has one and it is
      due. */
  predicate AppendsDisclaimer(data: VisionResponse, mem: seq<SpokenEntry>, now: int)
    ensures AppendsDisclaimer(data, mem, now) <==>
              (exists i :: 0 <= i < |data.guidance| && data.guidance[i].kind == Info) &&
              DisclaimerDue(mem, now)
  {
    Disclaimer(data.guidance).Some? && DisclaimerDue(mem, now)
  }

  /** The items to speak: the first two candidates, then the disclaimer
      when it is due. */
  function ItemsToSpeak(data: VisionResponse, mem: seq<SpokenEntry>, now: int): (r: seq<GuidanceItem>)
    ensures |r| <= MaxNewItems + 1
  {
    Take(Candidates(data, mem, now), MaxNewItems) +
    (if AppendsDisclaimer(data, mem, now) then [Disclaimer(data.guidance).value] else [])
  }

  /** The spoken list starts with the first (at most) two candidates in
      their original order, each a non-`info` guidance item not recently
      spoken, and holds at most one more item: the disclaimer, exactly
      when it is appended. */
  lemma ItemsToSpeakShape(data: VisionResponse, mem: seq<SpokenEntry>, now: int)
    ensures var cand := Candidates(data, mem, now);
            var n := if |cand| < MaxNewItems then |cand| else MaxNewItems;
            var r := ItemsToSpeak(data, mem, now);
      && r[..n] == cand[..n]
      && (forall i :: 0 <= i < n ==>
            r[i] in data.guidance && r[i].kind != Info &&
            !RecentlySpoken(mem, r[i].message, now, RepeatWindow(data.dontRepeatForSeconds)))
      && (|r| == n + 1 <==> AppendsDisclaimer(data, mem, now))
      && (|r| == n || |r| == n + 1)
      && (|r| == n + 1 ==> r[n] == Disclaimer(data.guidance).value)
  {
    var cand := Candidates(data, mem, now);
    var n := if |cand| < MaxNewItems then |cand| else MaxNewItems;
    var r := ItemsToSpeak(data, mem, now);
    assert r[..n] == Take(cand, MaxNewItems);
    forall i | 0 <= i < n
      ensures r[i] in data.guidance && r[i].kind != Info &&
              !RecentlySpoken(mem, r[i].message, now, RepeatWindow(data.dontRepeatForSeconds))
    {
      assert r[i] == cand[i];
      assert cand[i] in cand;
    }
  }

  /** The non-`info` items spoken are exactly the first (at most) two
      candidates, so no more than two of them are ever spoken. */
  lemma {:induction false} AtMostTwoNewItems(data: VisionResponse, mem: seq<SpokenEntry>, now: int)
    ensures NonInfo(ItemsToSpeak(data, mem, now)) == Take(Candidates(data, mem, now), MaxNewItems)
    ensures |NonInfo(ItemsToSpeak(data, mem, now))| <= MaxNewItems
  {
    var top := Take(Candidates(data, mem, now), MaxNewItems);
    var tail := if AppendsDisclaimer(data, mem, now) then [Disclaimer(data.guidance).value] else [];
    var p := (item: GuidanceItem) => item.kind != Info;
    FilterConcat(top, tail, p);
    forall i | 0 <= i < |top| ensures p(top[i]) {
      assert top[i] in Candidates(data, mem, now);
    }
    FilterAllPass(top, p);
    FilterNonePass(tail, p);
  }

  /** An `info` item is spoken exactly when the disclaimer is appended, and
      then it is the last one spoken and the first `info` item of the
      unfiltered guidance, whether or not it was recently spoken. */
  lemma DisclaimerRule(data: VisionResponse, mem: seq<SpokenEntry>, now: int)
    ensures var r := ItemsToSpeak(data, mem, now);
      && ((exists i :: 0 <= i < |r| && r[i].kind == Info) <==> AppendsDisclaimer(data, mem, now))
      && (AppendsDisclaimer(data, mem, now) ==>
            |r| > 0 && r[|r| - 1] == Disclaimer(data.guidance).value &&
            exists k :: 0 <= k < |data.guidance| && data.guidance[k] == r[|r| - 1] &&
                        forall i :: 0 <= i < k ==> data.guidance[i].kind != Info)
  {
    var r := ItemsToSpeak(data, mem, now);
    var top := Take(Candidates(data, mem, now), MaxNewItems);
    forall i | 0 <= i < |top| ensures top[i].kind != Info {
      assert top[i] in Candidates(data, mem, now);
    }
    if AppendsDisclaimer(data, mem, now) {
      assert r[|r| - 1] == Disclaimer(data.guidance).value;
    } else {
      assert r == top;
    }
  }

  /** The text handed to speech synthesis: the messages joined with ". ". */
  function SpokenText(items: seq<GuidanceItem>): (text: string)
    ensures items == [] ==> text == ""
    ensures items != [] ==> items[0].message <= text
    ensures items != [] ==> |text| == TotalLength(Messages(items)) + |Separator| * (|items| - 1)
  {
    Join(Messages(items), Separator)
  }

  /** Repeat suppression across announcements: a non-`info` message spoken
      at `t1` is not spoken again as a new item by a later result whose
      repeat window has not yet elapsed. */
  lemma NoRepeatWithinWindow(d1: VisionResponse, d2: VisionResponse, mem: seq<SpokenEntry>,
                             t1: int, t2: int, i: nat)
    requires Unique(mem)
    requires i < |ItemsToSpeak(d1, mem, t1)|
    requires t2 - t1 < RepeatWindow(d2.dontRepeatForSeconds)
    ensures var msg := ItemsToSpeak(d1, mem, t1)[i].message;
            var after := Remember(mem, ItemsToSpeak(d1, mem, t1), t1);
            forall item :: item in Candidates(d2, after, t2) ==> item.message != msg
  {
    var spoken := ItemsToSpeak(d1, mem, t1);
    var msg := spoken[i].message;
    var after := Remember(mem, spoken, t1);
    RememberSpec(mem, spoken, t1);
    var e := SpokenEntry(msg, t1);
    assert e in after;
    var k :| 0 <= k < |after| && after[k] == e;
    forall item | item in Candidates(d2, after, t2) ensures item.message != msg {
      RecentlySpokenIff(after, msg, t2, RepeatWindow(d2.dontRepeatForSeconds));
      assert item in FreshGuidance(d2.guidance, after, t2, RepeatWindow(d2.dontRepeatForSeconds));
    }
  }
  /** The marker test looks only at the first remembered message that
      contains "Use caution", whatever it is. While that entry is at most
      `DisclaimerInterval` old, no `info` item is spoken, even when that
      message is a hazard and the disclaimer itself was never spoken. */
  lemma MarkerEntryDefersDisclaimer(data: VisionResponse, mem: seq<SpokenEntry>, now: int, k: nat)
    requires k < |mem| && Contains(mem[k].message, DisclaimerMarker)
    requires forall i :: 0 <= i < k ==> !Contains(mem[i].message, DisclaimerMarker)
    requires now - mem[k].timestamp <= DisclaimerInterval
    ensures forall item :: item in ItemsToSpeak(data, mem, now) ==> item.kind != Info
  {
    DisclaimerRule(data, mem, now);
  }

  /** Conversely, once that first marker entry is more than
      `DisclaimerInterval` old, the disclaimer is spoken again (last), even
      when a later entry shows it was said a moment ago. */
  lemma StaleMarkerEntryRepeatsDisclaimer(data: VisionResponse, mem: seq<SpokenEntry>, now: int, k: nat)
    requires Disclaimer(data.guidance).Some?
    requires k < |mem| && Contains(mem[k].message, DisclaimerMarker)
    requires forall i :: 0 <= i < k ==> !Contains(mem[i].message, DisclaimerMarker)
    requires now - mem[k].timestamp > DisclaimerInterval
    ensures var r := ItemsToSpeak(data, mem, now);
            |r| > 0 && r[|r| - 1] == Disclaimer(data.guidance).value
  {
    DisclaimerRule(data, mem, now);
  }
}
