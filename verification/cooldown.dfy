/** The dedup guard: a per-context table from shortcut to the time (milliseconds)
    of its last trigger. The background worker and each page keep their own
    table; they are never synchronised. Each table is a plain JavaScript object,
    so the key `__proto__` names the object's prototype rather than an entry. */
module Cooldown {

  type Table = map<string, int>

  /** Cooldown of the background engine and of the page's insertion handler. */
  const InsertCooldownMs: int := 1500
  /** Cooldown of the page's own fixed-list detector. */
  const LocalDetectCooldownMs: int := 2000
  /** Entries older than this are eligible for the periodic sweep. */
  const SweepHorizonMs: int := 5000

  /** The one key a plain object does not store: assigning to it sets the
      prototype (a number leaves it unchanged), and reading it yields the
      prototype object. */
  const ProtoKey: string := "__proto__"

  /** `recentInsertions[k] && now - recentInsertions[k] < window`. The JavaScript
      test is on truthiness, so a recorded time of 0 reads as "never fired".
      For `__proto__` the read yields an object, `now - object` is NaN, and the
      comparison is false. */
  predicate Cooling(table: Table, k: string, now: int, window: int) {
    k != ProtoKey && k in table && table[k] != 0 && now - table[k] < window
  }

  /** `recentInsertions[k] = now`; a no-op for `__proto__`. */
  function Record(table: Table, k: string, now: int): (r: Table)
    ensures k != ProtoKey ==> r.Keys == table.Keys + {k} && r[k] == now
    ensures k == ProtoKey ==> r == table
    ensures forall j :: j in table && j != k ==> j in r && r[j] == table[j]
  {
    if k == ProtoKey then table else table[k := now]
  }

  /** The periodic sweep: deletes exactly the entries with `now - t > 5000`. */
  function Sweep(table: Table, now: int): (r: Table)
    ensures forall k :: k in r <==> k in table && now - table[k] <= SweepHorizonMs
    ensures forall k :: k in r ==> r[k] == table[k]
  {
    map k | k in table && !(now - table[k] > SweepHorizonMs) :: table[k]
  }

  /** A shortcut recorded at a non-zero time `t` is refused at `t + d` exactly
      when `d` is less than the window. */
  lemma RefireSuppressedIff(table: Table, k: string, t: int, d: int, window: int)
    requires t != 0 && k != ProtoKey
    ensures Cooling(Record(table, k, t), k, t + d, window) <==> d < window
  {
  }

  /** The sweep never changes a later cooldown decision, for any window no
      longer than the sweep horizon. */
  lemma SweepInvisibleToGuard(table: Table, now: int, later: int, k: string, window: int)
    requires now <= later && window <= SweepHorizonMs
    ensures Cooling(Sweep(table, now), k, later, window) <==> Cooling(table, k, later, window)
  {
  }

  /** `__proto__` never cools: recording it changes nothing and the guard
      never refuses it, whatever the table holds. */
  lemma ProtoKeyNeverCools(table: Table, t: int, now: int, window: int)
    ensures Record(table, ProtoKey, t) == table
    ensures !Cooling(Record(table, ProtoKey, t), ProtoKey, now, window)
  {
  }
}
