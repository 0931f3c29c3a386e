/** EyeshadeUserConfig: the persisted settings of the current generation,
    their defaults, the per-key filter applied when the settings document
    is loaded, and the entries written when it is saved.

    The XML document is reduced to its sequence of child elements, each
    carrying its name and the value its text parsed to with the parser
    that key uses (TimeSpan.TryParse for the three durations, in whole
    milliseconds; int.TryParse for the volume), or None when the text did
    not parse. */
module EyeshadeUserConfig {
  import opened Wrappers
  import opened Basics

  /** Durations in milliseconds. `autoPauseWhenUserLeave` is read by
      EyeshadeModule but neither loaded nor saved by this file. */
  datatype UserConfig = UserConfig(
    workTime: int,
    restingTime: int,
    notifyTime: int,
    ringerVolume: int,
    autoPauseWhenUserLeave: bool)

  datatype Entry = Entry(key: string, parsed: Option<int>)

  const WorkTimeKey: string := "WorkTime"
  const RestingTimeKey: string := "RestingTime"
  const NotifyTimeKey: string := "NotifyTime"
  const RingerVolumeKey: string := "RingerVolume"

  /** Property initialisers: 45 min of work, 4 min of rest, a notice 20 s
      ahead, full volume. */
  const Default: UserConfig := UserConfig(45 * MinuteMs, 4 * MinuteMs, 20 * SecondMs, 100, true)

  /** The bounds the loader and the setters enforce on the durations. */
  ghost predicate DurationsValid(c: UserConfig) {
    && c.workTime >= MinuteMs
    && c.restingTime >= MinuteMs
    && c.notifyTime >= SecondMs
  }

  lemma DefaultIsValid()
    ensures DurationsValid(Default)
    ensures 0 <= Default.ringerVolume <= 100
  {
  }

  /** Does an entry carry a value that passes `floor` (None: any value)? */
  predicate Passes(e: Entry, floor: Option<int>) {
    e.parsed.Some? && (floor.None? || e.parsed.value >= floor.value)
  }

  /** The loop body of Load for one element. */
  function Apply(c: UserConfig, e: Entry): (r: UserConfig)
    ensures r.autoPauseWhenUserLeave == c.autoPauseWhenUserLeave
    ensures e.key !in {WorkTimeKey, RestingTimeKey, NotifyTimeKey, RingerVolumeKey} ==> r == c
    ensures DurationsValid(c) ==> DurationsValid(r)
  {
    if e.key == WorkTimeKey then
      (if Passes(e, Some(MinuteMs)) then c.(workTime := e.parsed.value) else c)
    else if e.key == RestingTimeKey then
      (if Passes(e, Some(MinuteMs)) then c.(restingTime := e.parsed.value) else c)
    else if e.key == NotifyTimeKey then
      (if Passes(e, Some(SecondMs)) then c.(notifyTime := e.parsed.value) else c)
    else if e.key == RingerVolumeKey then
      (if Passes(e, None) then c.(ringerVolume := e.parsed.value) else c)
    else c
  }

  /** Load: apply the elements in document order. A configuration whose
      durations are within bounds stays within bounds whatever is read. */
  function Load(c: UserConfig, entries: seq<Entry>): (r: UserConfig)
    ensures r.autoPauseWhenUserLeave == c.autoPauseWhenUserLeave
    ensures DurationsValid(c) ==> DurationsValid(r)
    decreases |entries|
  {
    if |entries| == 0 then c else Load(Apply(c, entries[0]), entries[1..])
  }

  /** A document that cannot be read, or has no root, leaves every field
      as it was (the exception is logged and swallowed). */
  function LoadDocument(c: UserConfig, document: Option<seq<Entry>>): (r: UserConfig)
    ensures document.None? ==> r == c
    ensures DurationsValid(c) ==> DurationsValid(r)
  {
    match document
    case None => c
    case Some(entries) => Load(c, entries)
  }

  /** The constructor: defaults, then Load. */
  function Construct(document: Option<seq<Entry>>): (r: UserConfig)
    ensures DurationsValid(r)
    ensures r.autoPauseWhenUserLeave == Default.autoPauseWhenUserLeave
  {
    DefaultIsValid();
    LoadDocument(Default, document)
  }

  /** Save writes the four fields, in this order, unconditionally. */
  function Save(c: UserConfig): (r: seq<Entry>)
    ensures |r| == 4
    ensures r[0].key == WorkTimeKey && r[1].key == RestingTimeKey
    ensures r[2].key == NotifyTimeKey && r[3].key == RingerVolumeKey
    ensures forall i :: 0 <= i < |r| ==> r[i].parsed.Some?
  {
    [ Entry(WorkTimeKey, Some(c.workTime)),
      Entry(RestingTimeKey, Some(c.restingTime)),
      Entry(NotifyTimeKey, Some(c.notifyTime)),
      Entry(RingerVolumeKey, Some(c.ringerVolume)) ]
  }

  /* ---------------------------------------------------------------- */
  /* An independent description of Load: the last accepted entry wins  */
  /* ---------------------------------------------------------------- */

  /** The value of the last entry for `key` that passes `floor`, scanning
      from the end of the document; `fallback` when there is none. */
  function LastAccepted(entries: seq<Entry>, key: string, floor: Option<int>, fallback: int): int
    decreases |entries|
  {
    if |entries| == 0 then fallback
    else
      var e := entries[|entries| - 1];
      if e.key == key && Passes(e, floor) then e.parsed.value
      else LastAccepted(entries[..|entries| - 1], key, floor, fallback)
  }

  /** Loading one more element is applying it to what was loaded. */
  lemma {:induction false} LoadSnoc(c: UserConfig, entries: seq<Entry>, e: Entry)
    ensures Load(c, entries + [e]) == Apply(Load(c, entries), e)
    decreases |entries|
  {
    if |entries| == 0 {
      assert entries + [e] == [e];
    } else {
      assert (entries + [e])[1..] == entries[1..] + [e];
      LoadSnoc(Apply(c, entries[0]), entries[1..], e);
    }
  }

  /** Each field ends up as the last entry for its key that passed the
      filter, or keeps its prior value when no entry did. */
  lemma {:induction false} LoadKeepsLastAcceptedEntry(c: UserConfig, entries: seq<Entry>)
    ensures Load(c, entries).workTime == LastAccepted(entries, WorkTimeKey, Some(MinuteMs), c.workTime)
    ensures Load(c, entries).restingTime == LastAccepted(entries, RestingTimeKey, Some(MinuteMs), c.restingTime)
    ensures Load(c, entries).notifyTime == LastAccepted(entries, NotifyTimeKey, Some(SecondMs), c.notifyTime)
    ensures Load(c, entries).ringerVolume == LastAccepted(entries, RingerVolumeKey, None, c.ringerVolume)
    decreases |entries|
  {
    if |entries| > 0 {
      var init := entries[..|entries| - 1];
      var e := entries[|entries| - 1];
      assert entries == init + [e];
      LoadSnoc(c, init, e);
      LoadKeepsLastAcceptedEntry(c, init);
    }
  }

  /** An element with an unknown name changes nothing. */
  lemma LoadIgnoresUnknownKeys(c: UserConfig, entries: seq<Entry>, e: Entry)
    requires e.key !in {WorkTimeKey, RestingTimeKey, NotifyTimeKey, RingerVolumeKey}
    ensures Load(c, entries + [e]) == Load(c, entries)
  {
    LoadSnoc(c, entries, e);
  }

  /** A later entry that passes the filter overrides every earlier one. */
  lemma LoadLaterValidEntryOverrides(c: UserConfig, entries: seq<Entry>, v: int)
    requires v >= MinuteMs
    ensures Load(c, entries + [Entry(WorkTimeKey, Some(v))]).workTime == v
    ensures Load(c, entries + [Entry(RestingTimeKey, Some(v))]).restingTime == v
  {
    LoadSnoc(c, entries, Entry(WorkTimeKey, Some(v)));
    LoadSnoc(c, entries, Entry(RestingTimeKey, Some(v)));
  }

  /** A duration below its floor, or a text that did not parse, is
      discarded: the field keeps the value it had. */
  lemma LoadRejectsOutOfRangeEntry(c: UserConfig, entries: seq<Entry>, v: Option<int>)
    requires v.None? || v.value < SecondMs
    ensures Load(c, entries + [Entry(WorkTimeKey, v)]) == Load(c, entries)
    ensures Load(c, entries + [Entry(RestingTimeKey, v)]) == Load(c, entries)
    ensures Load(c, entries + [Entry(NotifyTimeKey, v)]) == Load(c, entries)
  {
    LoadSnoc(c, entries, Entry(WorkTimeKey, v));
    LoadSnoc(c, entries, Entry(RestingTimeKey, v));
    LoadSnoc(c, entries, Entry(NotifyTimeKey, v));
  }

  /** The volume is taken as parsed, without a range check. */
  lemma LoadAcceptsAnyVolume(c: UserConfig, entries: seq<Entry>, v: int)
    ensures Load(c, entries + [Entry(RingerVolumeKey, Some(v))]).ringerVolume == v
  {
    LoadSnoc(c, entries, Entry(RingerVolumeKey, Some(v)));
  }

  /** Loading what Save wrote restores every field that satisfies the load
      bounds; a field outside them keeps the loader's prior value. */
  lemma SaveThenLoad(base: UserConfig, c: UserConfig)
    ensures Load(base, Save(c)) == base.(
      workTime := if c.workTime >= MinuteMs then c.workTime else base.workTime,
      restingTime := if c.restingTime >= MinuteMs then c.restingTime else base.restingTime,
      notifyTime := if c.notifyTime >= SecondMs then c.notifyTime else base.notifyTime,
      ringerVolume := c.ringerVolume)
  {
    var s := Save(c);
    var c1 := Apply(base, s[0]);
    var c2 := Apply(c1, s[1]);
    var c3 := Apply(c2, s[2]);
    var c4 := Apply(c3, s[3]);
    assert s[1..][1..][1..][1..] == [];
    assert Load(c4, s[1..][1..][1..][1..]) == c4;
    assert Load(base, s) == Load(c1, s[1..]) == Load(c2, s[1..][1..]) == Load(c3, s[1..][1..][1..]) == c4;
  }

  /** In particular a configuration within bounds survives Save and Load
      unchanged (auto-pause is not part of the document). */
  lemma SaveThenLoadRoundTrip(base: UserConfig, c: UserConfig)
    requires DurationsValid(c)
    ensures Load(base, Save(c)) == c.(autoPauseWhenUserLeave := base.autoPauseWhenUserLeave)
  {
    SaveThenLoad(base, c);
  }
}
