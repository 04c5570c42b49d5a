/** The background match engine: the three matching tiers of
    `checkForTemplateMatch` and the two lookups of the `shortcutDetected`
    path, over an ordered snapshot of template records. */
module MatchEngine {
  import opened Opt
  import opened Text
  import Search

  /** A stored record `{shortcut, content}`; the content is opaque markup. */
  datatype Template = Template(shortcut: string, content: string)

  /** The two suffix tiers: exact (case-sensitive) and lower-cased. */
  datatype Rule = Exact | IgnoreCase

  predicate Hits(rule: Rule, buffer: string, t: Template) {
    match rule
    case Exact => EndsWith(buffer, t.shortcut)
    case IgnoreCase => EndsWith(Lower(buffer), Lower(t.shortcut))
  }

  ghost predicate NoHit(rule: Rule, templates: seq<Template>, buffer: string) {
    forall j :: 0 <= j < |templates| ==> !Hits(rule, buffer, templates[j])
  }

  /** `t` is the first record, in snapshot order, that `rule` accepts. */
  ghost predicate FirstHit(rule: Rule, templates: seq<Template>, buffer: string, t: Template) {
    exists i :: 0 <= i < |templates| && templates[i] == t && Hits(rule, buffer, t)
      && forall j :: 0 <= j < i ==> !Hits(rule, buffer, templates[j])
  }

  /** `templates.find(t => buffer.endsWith(t.shortcut))`, and its lower-cased variant. */
  function SuffixMatch(rule: Rule, templates: seq<Template>, buffer: string): (r: Option<Template>)
    ensures r.None? <==> NoHit(rule, templates, buffer)
    ensures r.Some? ==> FirstHit(rule, templates, buffer, r.value)
  {
    Search.Find(templates, t => Hits(rule, buffer, t))
  }

  /** The first hit is unique, so it is what the search returns. */
  lemma FirstHitIsMatch(rule: Rule, templates: seq<Template>, buffer: string, t: Template)
    requires FirstHit(rule, templates, buffer, t)
    ensures SuffixMatch(rule, templates, buffer) == Some(t)
  {
    var i :| 0 <= i < |templates| && templates[i] == t && Hits(rule, buffer, t)
      && forall j :: 0 <= j < i ==> !Hits(rule, buffer, templates[j]);
    var m := SuffixMatch(rule, templates, buffer);
    var k :| 0 <= k < |templates| && templates[k] == m.value && Hits(rule, buffer, m.value)
      && forall j :: 0 <= j < k ==> !Hits(rule, buffer, templates[j]);
    assert k == i;
  }

  /** Every exact hit is a case-insensitive hit: tier 2 only adds records whose
      shortcut differs from the typed text in letter case. */
  lemma ExactHitIsIgnoreCaseHit(buffer: string, t: Template)
    requires Hits(Exact, buffer, t)
    ensures Hits(IgnoreCase, buffer, t)
  {
    EndsWithLower(buffer, t.shortcut);
  }

  // ---------------------------------------------------------------------------
  // Tier 3

  /** Number of trailing characters the partial tier looks at. */
  const PartialWindow: nat := 5
  /** Shortest buffer for which the partial tier is tried. */
  const PartialMinBuffer: nat := 3

  /** `t.shortcut.includes(lastChars) || lastChars.includes(t.shortcut)`. */
  predicate PartialHit(lastChars: string, t: Template) {
    Includes(t.shortcut, lastChars) || Includes(lastChars, t.shortcut)
  }

  /** `t` sits at the one and only position whose record is a partial hit. */
  ghost predicate OnlyPartialHit(templates: seq<Template>, lastChars: string, t: Template) {
    exists i :: 0 <= i < |templates| && templates[i] == t && PartialHit(lastChars, t)
      && forall j :: 0 <= j < |templates| && j != i ==> !PartialHit(lastChars, templates[j])
  }

  /** The partial tier: filter the partial hits and accept only a single one;
      two or more candidates are ambiguous and give no match. */
  function PartialMatch(templates: seq<Template>, lastChars: string): (r: Option<Template>)
    ensures r.Some? <==> exists t :: OnlyPartialHit(templates, lastChars, t)
    ensures r.Some? ==> OnlyPartialHit(templates, lastChars, r.value)
  {
    var p := t => PartialHit(lastChars, t);
    var candidates := Search.Filter(templates, p);
    Search.FilterSingleton(templates, p);
    assert forall i | 0 <= i < |templates| :: Search.OnlyAt(templates, p, i) <==> OnlyPartialHit(templates, lastChars, templates[i]) by {
      forall i | 0 <= i < |templates| ensures Search.OnlyAt(templates, p, i) ==> OnlyPartialHit(templates, lastChars, templates[i]) {
        if Search.OnlyAt(templates, p, i) {
          assert p(templates[i]);
        }
      }
      forall i | 0 <= i < |templates| && OnlyPartialHit(templates, lastChars, templates[i])
        ensures Search.OnlyAt(templates, p, i)
      {
        var k :| 0 <= k < |templates| && templates[k] == templates[i] && PartialHit(lastChars, templates[k])
          && forall j :: 0 <= j < |templates| && j != k ==> !PartialHit(lastChars, templates[j]);
        assert k == i;
      }
    }
    if |candidates| == 1 then Some(candidates[0]) else None
  }

  // ---------------------------------------------------------------------------
  // The store path

  /** The tiered match run on a fresh store snapshot: exact suffix, then
      lower-cased suffix, then (for a buffer of at least 3 characters) a unique
      partial hit on the last 5 characters. */
  function StoreMatch(templates: seq<Template>, buffer: string): (r: Option<Template>)
    ensures r.Some? ==> r.value in templates
    ensures !NoHit(Exact, templates, buffer) ==> r.Some? && FirstHit(Exact, templates, buffer, r.value)
    ensures NoHit(Exact, templates, buffer) && !NoHit(IgnoreCase, templates, buffer) ==>
              r.Some? && FirstHit(IgnoreCase, templates, buffer, r.value)
    ensures NoHit(Exact, templates, buffer) && NoHit(IgnoreCase, templates, buffer) ==>
              (r.Some? <==> |buffer| >= PartialMinBuffer
                             && exists t :: OnlyPartialHit(templates, KeepLast(buffer, PartialWindow), t))
    ensures NoHit(Exact, templates, buffer) && NoHit(IgnoreCase, templates, buffer) && r.Some? ==>
              OnlyPartialHit(templates, KeepLast(buffer, PartialWindow), r.value)
  {
    SuffixMatch(Exact, templates, buffer)
      .OrElse(SuffixMatch(IgnoreCase, templates, buffer))
      .OrElse(if |buffer| >= PartialMinBuffer then PartialMatch(templates, KeepLast(buffer, PartialWindow)) else None)
  }

  // ---------------------------------------------------------------------------
  // The explicit-trigger path

  /** `store.get(shortcut)`: the record stored under exactly this key. */
  function KeyLookup(templates: seq<Template>, shortcut: string): (r: Option<Template>)
    ensures r.Some? ==> r.value in templates && r.value.shortcut == shortcut
    ensures r.None? <==> forall j :: 0 <= j < |templates| ==> templates[j].shortcut != shortcut
  {
    Search.Find(templates, (t: Template) => t.shortcut == shortcut)
  }

  /** `all.find(t => t.shortcut.toLowerCase() === shortcut.toLowerCase())`. */
  function CaseInsensitiveLookup(templates: seq<Template>, shortcut: string): (r: Option<Template>)
    ensures r.None? <==> forall j :: 0 <= j < |templates| ==> Lower(templates[j].shortcut) != Lower(shortcut)
    ensures r.Some? ==>
              exists i :: 0 <= i < |templates| && templates[i] == r.value
                && Lower(r.value.shortcut) == Lower(shortcut)
                && forall j :: 0 <= j < i ==> Lower(templates[j].shortcut) != Lower(shortcut)
  {
    Search.Find(templates, (t: Template) => Lower(t.shortcut) == Lower(shortcut))
  }
}
