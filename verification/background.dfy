/** The background worker's state machine: the rolling typing buffer, the
    cache-then-store match of `checkForTemplateMatch`, the `shortcutDetected`
    direct lookup, the cache reload and the periodic sweep of the dedup table.
    Each handler is a pure step from the worker's state, the event, the store
    snapshot its asynchronous read would deliver, and the clock. */
module Background {
  import opened Opt
  import opened Text
  import opened Cooldown
  import opened MatchEngine

  /** The typing buffer keeps at most this many trailing characters. */
  const TypingBufferCap: nat := 30

  datatype State = State(
    typingBuffer: string,
    recent: Table,
    cache: seq<Template>,
    activeTab: Option<int>)

  /** Messages from page contexts. */
  datatype Message =
    | Keydown(key: string)
    | InputChange(text: string)
    | ShortcutDetected(shortcut: string)
    | OpenPopup
    | GetDebugLog

  /** The `insertTemplate` command sent to a tab. */
  datatype Command = InsertTemplate(tab: int, content: string, shortcut: string)

  /** What a matching step decided. */
  datatype Decision =
    | NoMatch
    | Suppressed(shortcut: string)
    | Fired(template: Template)
    | StoreFailed

  datatype Step = Step(state: State, sent: seq<Command>, decision: Decision)

  /** A store read: the records `getAll` delivers, or `None` when opening the
      database or reading from it failed. */
  type StoreRead = Option<seq<Template>>

  /** `insertTemplate(tabId, ...)`: one command when the tab id is truthy
      (present and non-zero), none otherwise. */
  function InsertCommand(tab: Option<int>, content: string, shortcut: string): (r: seq<Command>)
    ensures |r| <= 1
    ensures |r| == 1 <==> tab.Some? && tab.value != 0
    ensures |r| == 1 ==> r[0] == InsertTemplate(tab.value, content, shortcut)
  {
    if tab.Some? && tab.value != 0 then [InsertTemplate(tab.value, content, shortcut)] else []
  }

  /** The keydown update: append the key, keep the last 30 characters. */
  function AppendKey(buffer: string, key: string): string {
    AppendBounded(buffer, key, TypingBufferCap)
  }

  /** A match that passed the guard: record `now`, send one command, empty the buffer. */
  function Fire(st: State, t: Template, now: int): Step {
    Step(st.(typingBuffer := "", recent := Record(st.recent, t.shortcut, now)),
         InsertCommand(st.activeTab, t.content, t.shortcut),
         Fired(t))
  }

  /** `checkForTemplateMatch(typingBuffer, activeTabId)`. A first exact hit in the
      cache is decided on the cache alone; otherwise the store snapshot is matched
      with all three tiers, and a firing match also replaces the cache with it. */
  function CheckForTemplateMatch(st: State, store: StoreRead, now: int): (r: Step)
    ensures r.state.activeTab == st.activeTab
    ensures !r.decision.Fired? ==> r.state == st && r.sent == []
    ensures r.decision.Fired? ==>
              && !Cooling(st.recent, r.decision.template.shortcut, now, InsertCooldownMs)
              && r.state.typingBuffer == ""
              && r.state.recent == Record(st.recent, r.decision.template.shortcut, now)
              && r.sent == InsertCommand(st.activeTab, r.decision.template.content, r.decision.template.shortcut)
    ensures r.decision.Suppressed? ==> Cooling(st.recent, r.decision.shortcut, now, InsertCooldownMs)
    // cache path
    ensures !NoHit(Exact, st.cache, st.typingBuffer) ==>
              && r.state.cache == st.cache
              && ((r.decision.Fired? && FirstHit(Exact, st.cache, st.typingBuffer, r.decision.template))
                  || (r.decision.Suppressed?
                      && exists t :: FirstHit(Exact, st.cache, st.typingBuffer, t) && t.shortcut == r.decision.shortcut))
    // store path
    ensures NoHit(Exact, st.cache, st.typingBuffer) && store.None? ==> r.decision == StoreFailed
    ensures NoHit(Exact, st.cache, st.typingBuffer) && store.Some? ==>
              && (r.decision == NoMatch <==> StoreMatch(store.value, st.typingBuffer).None?)
              && (r.decision.Fired? ==> r.decision.template == StoreMatch(store.value, st.typingBuffer).value
                                        && r.state.cache == store.value)
    ensures NoHit(Exact, st.cache, st.typingBuffer) && store.Some? && StoreMatch(store.value, st.typingBuffer).Some? ==>
              var m := StoreMatch(store.value, st.typingBuffer).value;
              && (Cooling(st.recent, m.shortcut, now, InsertCooldownMs) ==> r.decision == Suppressed(m.shortcut))
              && (!Cooling(st.recent, m.shortcut, now, InsertCooldownMs) ==> r.decision == Fired(m))
    ensures store.Some? ==> !r.decision.StoreFailed?
  {
    var buffer := st.typingBuffer;
    match SuffixMatch(Exact, st.cache, buffer)
    case Some(t) =>
      if Cooling(st.recent, t.shortcut, now, InsertCooldownMs) then Step(st, [], Suppressed(t.shortcut))
      else Fire(st, t, now)
    case None =>
      match store
      case None => Step(st, [], StoreFailed)
      case Some(templates) =>
        match StoreMatch(templates, buffer)
        case None => Step(st, [], NoMatch)
        case Some(t) =>
          if Cooling(st.recent, t.shortcut, now, InsertCooldownMs) then Step(st, [], Suppressed(t.shortcut))
          else
            var s := Fire(st, t, now);
            s.(state := s.state.(cache := templates))
  }

  /** The `shortcutDetected` handler: guard, record `now` before any lookup, then
      the record stored under the exact key, else the first record equal to it
      ignoring case (sent with its stored shortcut), else nothing. The typing
      buffer and the cache are left alone. */
  function OnShortcutDetected(st: State, shortcut: string, store: StoreRead, now: int): (r: Step)
    ensures Cooling(st.recent, shortcut, now, InsertCooldownMs) ==> r == Step(st, [], Suppressed(shortcut))
    ensures !Cooling(st.recent, shortcut, now, InsertCooldownMs) ==>
              r.state == st.(recent := Record(st.recent, shortcut, now))
    ensures !r.decision.Fired? ==> r.sent == []
    ensures !Cooling(st.recent, shortcut, now, InsertCooldownMs) && store.None? ==> r.decision == StoreFailed
    ensures r.decision.Fired? ==>
              store.Some? && r.decision.template in store.value
              && Lower(r.decision.template.shortcut) == Lower(shortcut)
    ensures !Cooling(st.recent, shortcut, now, InsertCooldownMs) && store.Some?
            && (exists j :: 0 <= j < |store.value| && store.value[j].shortcut == shortcut) ==>
              && r.decision.Fired? && r.decision.template.shortcut == shortcut
              && r.sent == InsertCommand(st.activeTab, r.decision.template.content, shortcut)
    ensures !Cooling(st.recent, shortcut, now, InsertCooldownMs) && store.Some?
            && (forall j :: 0 <= j < |store.value| ==> store.value[j].shortcut != shortcut) ==>
              && (r.decision.Fired? <==> exists j :: 0 <= j < |store.value| && Lower(store.value[j].shortcut) == Lower(shortcut))
              && (r.decision.Fired? ==>
                    && r.decision.template == CaseInsensitiveLookup(store.value, shortcut).value
                    && r.sent == InsertCommand(st.activeTab, r.decision.template.content, r.decision.template.shortcut))
  {
    if Cooling(st.recent, shortcut, now, InsertCooldownMs) then Step(st, [], Suppressed(shortcut))
    else
      var st' := st.(recent := Record(st.recent, shortcut, now));
      match store
      case None => Step(st', [], StoreFailed)
      case Some(templates) =>
        match KeyLookup(templates, shortcut)
        case Some(t) => Step(st', InsertCommand(st.activeTab, t.content, shortcut), Fired(t))
        case None =>
          match CaseInsensitiveLookup(templates, shortcut)
          case Some(t) => Step(st', InsertCommand(st.activeTab, t.content, t.shortcut), Fired(t))
          case None => Step(st', [], NoMatch)
  }

  /** The `runtime.onMessage` listener: remember the sender's tab, then dispatch.
      `openPopup` and `getDebugLog` only reach collaborators outside the model. */
  function OnMessage(st: State, senderTab: Option<int>, msg: Message, store: StoreRead, now: int): (r: Step)
    ensures r.state.activeTab == senderTab.OrElse(st.activeTab)
    ensures msg.Keydown? && !r.decision.Fired? ==> r.state.typingBuffer == AppendKey(st.typingBuffer, msg.key)
    ensures msg.InputChange? && !r.decision.Fired? ==> r.state.typingBuffer == msg.text
    ensures msg.ShortcutDetected? ==> r.state.typingBuffer == st.typingBuffer && r.state.cache == st.cache
    ensures msg.ShortcutDetected? ==>
              r == OnShortcutDetected(st.(activeTab := r.state.activeTab), msg.shortcut, store, now)
    ensures msg.Keydown? && r.decision.Fired? && r.decision.template.shortcut != ProtoKey ==>
              r.decision.template.shortcut in r.state.recent && r.state.recent[r.decision.template.shortcut] == now
    ensures msg.Keydown? ==>
              r == CheckForTemplateMatch(st.(activeTab := r.state.activeTab, typingBuffer := AppendKey(st.typingBuffer, msg.key)), store, now)
    ensures msg.InputChange? ==>
              r == CheckForTemplateMatch(st.(activeTab := r.state.activeTab, typingBuffer := msg.text), store, now)
    ensures (msg.OpenPopup? || msg.GetDebugLog?) ==> r.state == st.(activeTab := r.state.activeTab) && r.sent == []
  {
    var st := st.(activeTab := senderTab.OrElse(st.activeTab));
    match msg
    case Keydown(key) => CheckForTemplateMatch(st.(typingBuffer := AppendKey(st.typingBuffer, key)), store, now)
    case InputChange(text) => CheckForTemplateMatch(st.(typingBuffer := text), store, now)
    case ShortcutDetected(s) => OnShortcutDetected(st, s, store, now)
    case OpenPopup => Step(st, [], NoMatch)
    case GetDebugLog => Step(st, [], NoMatch)
  }

  /** `loadTemplatesCache`: a successful read replaces the cache wholesale, a
      failed one keeps the last good snapshot. Run at start-up and on
      `templatesUpdated`. */
  function ReloadCache(st: State, read: StoreRead): (r: State)
    ensures read.Some? ==> r.cache == read.value
    ensures read.None? ==> r.cache == st.cache
    ensures r.typingBuffer == st.typingBuffer && r.recent == st.recent && r.activeTab == st.activeTab
  {
    match read
    case Some(templates) => st.(cache := templates)
    case None => st
  }

  /** The ten-second sweep of the dedup table: only entries older than the
      horizon go, and nothing but the table changes. */
  function SweepRecent(st: State, now: int): (r: State)
    ensures forall k :: k in r.recent <==> k in st.recent && now - st.recent[k] <= SweepHorizonMs
    ensures forall k :: k in r.recent ==> r.recent[k] == st.recent[k]
    ensures r.typingBuffer == st.typingBuffer && r.cache == st.cache && r.activeTab == st.activeTab
  {
    st.(recent := Sweep(st.recent, now))
  }

  /** A cache hit is decided without the store: whatever the read would deliver,
      the step is the same. */
  lemma CacheHitIgnoresStore(st: State, read1: StoreRead, read2: StoreRead, now: int)
    requires !NoHit(Exact, st.cache, st.typingBuffer)
    ensures CheckForTemplateMatch(st, read1, now) == CheckForTemplateMatch(st, read2, now)
  {
  }

  /** After a reload from a fresh snapshot, an input whose text ends with a
      stored shortcut is decided on that snapshot's first exact hit, however
      stale the cache was before. */
  lemma ReloadHealsStaleCache(st: State, snapshot: seq<Template>, tab: Option<int>, text: string, read: StoreRead, now: int)
    requires !NoHit(Exact, snapshot, text)
    ensures var r := OnMessage(ReloadCache(st, Some(snapshot)), tab, InputChange(text), read, now);
            || (r.decision.Fired? && FirstHit(Exact, snapshot, text, r.decision.template))
            || (r.decision.Suppressed? && exists t :: FirstHit(Exact, snapshot, text, t) && t.shortcut == r.decision.shortcut)
  {
  }

  /** A cache hit on a shortcut still in its cooldown is suppressed and
      changes nothing. */
  lemma CacheHitInCooldownSuppressed(st: State, t: Template, read: StoreRead, now: int)
    requires FirstHit(Exact, st.cache, st.typingBuffer, t)
    requires Cooling(st.recent, t.shortcut, now, InsertCooldownMs)
    ensures CheckForTemplateMatch(st, read, now) == Step(st, [], Suppressed(t.shortcut))
  {
    FirstHitIsMatch(Exact, st.cache, st.typingBuffer, t);
  }

  /** No keystroke or input path fires a shortcut again within the cooldown:
      once `s` was recorded at a non-zero time `t0`, no keydown or
      `inputChange` before `t0 + 1500` fires a template stored under `s`,
      whatever the cache, the buffer and the store hold. `__proto__` is the
      exception, see `ProtoShortcutRefires`. */
  lemma NoRefireWithinCooldown(st: State, tab: Option<int>, msg: Message, read: StoreRead, s: string, t0: int, d: int)
    requires msg.Keydown? || msg.InputChange?
    requires s != ProtoKey && t0 != 0 && 0 <= d < InsertCooldownMs
    requires s in st.recent && st.recent[s] == t0
    ensures var r := OnMessage(st, tab, msg, read, t0 + d);
            !(r.decision.Fired? && r.decision.template.shortcut == s)
  {
  }

  /** The redundant paths fire once: once a template has fired at a non-zero
      time `t0` (a firing keydown records it at `t0`, see `OnMessage`), an
      `inputChange` whose text's first exact hit in the cache is that template,
      arriving within the cooldown, sends nothing and changes only the buffer. */
  lemma RedundantInputChangeSuppressed(
    st: State, tab: Option<int>, t: Template, text: string, read: StoreRead, t0: int, d: int)
    requires t0 != 0 && 0 <= d < InsertCooldownMs
    requires t.shortcut != ProtoKey && t.shortcut in st.recent && st.recent[t.shortcut] == t0
    requires FirstHit(Exact, st.cache, text, t)
    ensures var r := OnMessage(st, tab, InputChange(text), read, t0 + d);
            r.sent == [] && r.decision == Suppressed(t.shortcut)
            && r.state == st.(typingBuffer := text, activeTab := r.state.activeTab)
  {
    var st2 := st.(activeTab := tab.OrElse(st.activeTab), typingBuffer := text);
    CacheHitInCooldownSuppressed(st2, t, read, t0 + d);
  }

  /** A template stored under `__proto__` is never guarded: an `inputChange`
      whose first exact cache hit it is fires it, however recently it fired
      before, so the keydown and the input that follows both insert it. */
  lemma ProtoShortcutRefires(st: State, tab: Option<int>, t: Template, text: string, read: StoreRead, now: int)
    requires t.shortcut == ProtoKey
    requires FirstHit(Exact, st.cache, text, t)
    ensures var r := OnMessage(st, tab, InputChange(text), read, now);
            r.decision == Fired(t) && r.state.recent == st.recent
  {
    var st2 := st.(activeTab := tab.OrElse(st.activeTab), typingBuffer := text);
    FirstHitIsMatch(Exact, st2.cache, st2.typingBuffer, t);
  }

  /** The `shortcutDetected` fallback guards only the requested key: when it
      fires a record stored under a different spelling, that record's own key
      is exactly as guarded as before, so a keydown or `inputChange` can fire
      it again at once. */
  lemma FallbackLeavesStoredKeyUnguarded(st: State, shortcut: string, store: StoreRead, now: int, later: int)
    requires OnShortcutDetected(st, shortcut, store, now).decision.Fired?
    requires OnShortcutDetected(st, shortcut, store, now).decision.template.shortcut != shortcut
    ensures var r := OnShortcutDetected(st, shortcut, store, now);
            var k := r.decision.template.shortcut;
            Cooling(r.state.recent, k, later, InsertCooldownMs) <==> Cooling(st.recent, k, later, InsertCooldownMs)
  {
  }
}
