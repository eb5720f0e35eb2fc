/**
 * Block detection after navigating to the direct PDF URL: the attempt gives
 * up at once when the lowered page title, or the first 2000 characters of the
 * lowered page source, contain one of seventeen error, login or paywall words.
 */
module BlockCheck {
  import opened Text

  /** The indicator words, in the order the source tries them. */
  const Indicators: seq<string> := [
    "erreur", "error", "not found", "404", "access denied",
    "authentification", "authentication", "login", "connexion",
    "restricted", "restreint", "indisponible", "unavailable",
    "payant", "payment", "abonnement", "subscription"
  ]

  /** How much of the page source is searched. */
  const SourcePrefix: nat := 2000

  /** `indicator in title.lower() or indicator in source.lower()[:2000]`. */
  predicate Hit(indicator: string, title: string, source: string) {
    Contains(Lower(title), indicator) || Contains(Head(Lower(source), SourcePrefix), indicator)
  }

  /** Some indicator word shows in the title or the searched part of the source. */
  predicate Blocked(title: string, source: string) {
    exists k :: 0 <= k < |Indicators| && Hit(Indicators[k], title, source)
  }

  /** The indicator loop: reports a block exactly when some indicator hits. */
  method FindIndicator(title: string, source: string) returns (blocked: bool)
    ensures blocked <==> Blocked(title, source)
  {
    var pageTitle := Lower(title);
    var pageSource := Lower(source);
    for k := 0 to |Indicators|
      invariant forall j :: 0 <= j < k ==> !Hit(Indicators[j], title, source)
    {
      var indicator := Indicators[k];
      if Contains(pageTitle, indicator) || Contains(Head(pageSource, SourcePrefix), indicator) {
        return true;
      }
    }
    return false;
  }

  /** The test is case-insensitive: lowering title and source first changes nothing. */
  lemma BlockedIgnoresCase(title: string, source: string)
    ensures Blocked(Lower(title), Lower(source)) == Blocked(title, source)
  {
    LowerIdempotent(title);
    LowerIdempotent(source);
  }

  /** Nothing after the first 2000 characters of the source can cause a block. */
  lemma BlockedIgnoresSourceTail(title: string, source: string, tail: string)
    requires |source| >= SourcePrefix
    ensures Blocked(title, source + tail) == Blocked(title, source)
  {
    assert Head(Lower(source + tail), SourcePrefix) == Head(Lower(source), SourcePrefix);
  }

  /** A landing page that mentions "authentification" near its top is treated as blocked. */
  lemma AuthentificationBlocks(title: string, source: string)
    requires Contains(Head(Lower(source), SourcePrefix), "authentification")
    ensures Blocked(title, source)
  {
    assert Hit(Indicators[5], title, source);
  }
}
