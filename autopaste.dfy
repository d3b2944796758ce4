/** The clipboard auto-paste policy of the bookmark form: the url input, the
    "was this text pasted automatically" flag, and the three refs the policy
    keeps across renders (time of the last save, the last clipboard text
    seen, and whether that text has already been pasted once). */
module AutoPaste {
  import opened Wrappers
  import opened Text

  /** Milliseconds after a save during which the clipboard is not read. */
  const Cooldown := 30000

  datatype PasteState = PasteState(
    url: string,
    autoPasted: bool,
    lastSaveAt: int,
    lastClipboard: string,
    used: bool)

  /** The state of a freshly mounted form. */
  const Initial := PasteState("", false, 0, "", false)

  /** The conditions under which an attempt at time `now` that read `text`
      fills the url input. */
  predicate WouldFill(s: PasteState, now: int, text: string) {
    && now - s.lastSaveAt >= Cooldown
    && !(text == s.lastClipboard && s.used)
    && text != "" && s.url == ""
  }

  /** One auto-paste attempt at time `now`; `clip` is the clipboard text, or
      None when reading the clipboard failed. Inside the cooldown the clipboard
      is not read. A new text is recorded and re-arms the policy; an armed
      policy fills an empty input with a non-empty text and disarms. */
  function Focus(s: PasteState, now: int, clip: Option<string>): (r: PasteState)
    ensures now - s.lastSaveAt < Cooldown ==> r == s
    ensures clip.None? ==> r == s
    ensures r.lastSaveAt == s.lastSaveAt
    ensures now - s.lastSaveAt >= Cooldown && clip.Some? ==> r.lastClipboard == clip.value
    ensures s.url != "" ==> r.url == s.url && r.autoPasted == s.autoPasted
    ensures r.url != s.url <==> clip.Some? && WouldFill(s, now, clip.value)
    ensures r.url != s.url ==> r.url == clip.value && r.autoPasted && r.used
    ensures r.url == s.url ==> r.autoPasted == s.autoPasted
    ensures clip.Some? && clip.value == s.lastClipboard ==> r.used == s.used || r.url != s.url
    ensures now - s.lastSaveAt >= Cooldown && clip.Some? && clip.value != s.lastClipboard ==>
      r.used == (r.url != s.url)
  {
    if now - s.lastSaveAt < Cooldown then s
    else if clip.None? then s
    else
      var text := clip.value;
      var s1 := if text != s.lastClipboard then s.(lastClipboard := text, used := false) else s;
      if s1.used then s1
      else if text != "" && text != s1.url && s1.url == "" then
        s1.(url := text, autoPasted := true, used := true)
      else s1
  }

  /** Typing into the input: the typed text replaces the url and the text no
      longer counts as pasted. */
  function Edit(s: PasteState, typed: string): (r: PasteState)
    ensures r.url == typed && !r.autoPasted
    ensures r.lastSaveAt == s.lastSaveAt && r.lastClipboard == s.lastClipboard && r.used == s.used
  {
    s.(url := typed, autoPasted := false)
  }

  /** The Clear control is rendered only next to a non-empty pasted url. */
  predicate ClearShown(s: PasteState) {
    s.autoPasted && s.url != ""
  }

  /** Clicking Clear empties the input. The policy stays disarmed for the
      text that was cleared. */
  function Clear(s: PasteState): (r: PasteState)
    ensures r.url == "" && !r.autoPasted
    ensures r.lastSaveAt == s.lastSaveAt && r.lastClipboard == s.lastClipboard && r.used == s.used
  {
    s.(url := "", autoPasted := false)
  }

  /** Submitting the form at time `now`: a url that is blank after trimming
      is not saved and nothing changes; otherwise the input empties and the
      cooldown starts. The armed flag is left as it is. */
  function Save(s: PasteState, now: int): (r: PasteState)
    ensures Trim(s.url) == "" ==> r == s
    ensures Trim(s.url) != "" ==> r.url == "" && !r.autoPasted && r.lastSaveAt == now
    ensures r.lastClipboard == s.lastClipboard && r.used == s.used
  {
    if Trim(s.url) == "" then s else s.(url := "", autoPasted := false, lastSaveAt := now)
  }

  /** Just after a save, an attempt within the cooldown changes nothing,
      whatever the clipboard holds. */
  lemma CooldownAfterSave(s: PasteState, saved: int, now: int, clip: Option<string>)
    requires Trim(s.url) != ""
    requires now - saved < Cooldown
    ensures Focus(Save(s, saved), now, clip) == Save(s, saved)
  {
  }

  /** What happens to the form, one event at a time. */
  datatype Event =
    | FocusAt(now: int, clip: Option<string>)
    | Type(typed: string)
    | ClickClear
    | Submit(now: int)

  function Step(s: PasteState, e: Event): PasteState {
    match e
    case FocusAt(now, clip) => Focus(s, now, clip)
    case Type(typed) => Edit(s, typed)
    case ClickClear => if ClearShown(s) then Clear(s) else s
    case Submit(now) => Save(s, now)
  }

  function Run(s: PasteState, evs: seq<Event>): PasteState
    decreases |evs|
  {
    if evs == [] then s else Run(Step(s, evs[0]), evs[1..])
  }

  /** The event is an auto-paste attempt that fills the input. */
  predicate Fills(s: PasteState, e: Event) {
    e.FocusAt? && Focus(s, e.now, e.clip).url != s.url
  }

  /** How many attempts along the run fill the input. */
  function FillCount(s: PasteState, evs: seq<Event>): nat
    decreases |evs|
  {
    if evs == [] then 0
    else (if Fills(s, evs[0]) then 1 else 0) + FillCount(Step(s, evs[0]), evs[1..])
  }

  /** Every clipboard read along the run that succeeds returns `t`. */
  predicate ClipboardHolds(evs: seq<Event>, t: string) {
    forall i :: 0 <= i < |evs| && evs[i].FocusAt? && evs[i].clip.Some? ==> evs[i].clip.value == t
  }

  /** Once `t` has been pasted, it is never pasted again while the clipboard
      keeps holding it, whatever the user types, clears or saves meanwhile. */
  lemma {:induction false} UsedStaysUsed(s: PasteState, evs: seq<Event>, t: string)
    requires s.used && s.lastClipboard == t
    requires ClipboardHolds(evs, t)
    ensures FillCount(s, evs) == 0
    ensures Run(s, evs).used && Run(s, evs).lastClipboard == t
    decreases |evs|
  {
    if evs != [] {
      var s1 := Step(s, evs[0]);
      assert s1.used && s1.lastClipboard == t;
      assert !Fills(s, evs[0]);
      assert ClipboardHolds(evs[1..], t) by {
        forall i | 0 <= i < |evs[1..]| && evs[1..][i].FocusAt? && evs[1..][i].clip.Some?
          ensures evs[1..][i].clip.value == t
        {
          assert evs[1..][i] == evs[i + 1];
        }
      }
      UsedStaysUsed(s1, evs[1..], t);
    }
  }

  /** Offer once: while the clipboard holds one text, at most one attempt
      along any run pastes it. */
  lemma {:induction false} OfferOnce(s: PasteState, evs: seq<Event>, t: string)
    requires ClipboardHolds(evs, t)
    ensures FillCount(s, evs) <= 1
    decreases |evs|
  {
    if evs != [] {
      var s1 := Step(s, evs[0]);
      assert ClipboardHolds(evs[1..], t) by {
        forall i | 0 <= i < |evs[1..]| && evs[1..][i].FocusAt? && evs[1..][i].clip.Some?
          ensures evs[1..][i].clip.value == t
        {
          assert evs[1..][i] == evs[i + 1];
        }
      }
      if Fills(s, evs[0]) {
        assert evs[0].clip.value == t;
        UsedStaysUsed(s1, evs[1..], t);
      } else {
        OfferOnce(s1, evs[1..], t);
      }
    }
  }

  /** Text the user typed is never replaced by an auto-paste: along any run of
      attempts alone, a non-empty url stays as it is. */
  lemma {:induction false} NeverOverwrites(s: PasteState, evs: seq<Event>)
    requires s.url != ""
    requires forall i :: 0 <= i < |evs| ==> evs[i].FocusAt?
    ensures Run(s, evs).url == s.url
    decreases |evs|
  {
    if evs != [] {
      assert forall i :: 0 <= i < |evs[1..]| ==> evs[1..][i] == evs[i + 1];
      NeverOverwrites(Step(s, evs[0]), evs[1..]);
    }
  }
}
