/**
 * `removePlural(str)` of the client: `str.replace(/s$/, '')`. Without the
 * `m` flag, `$` matches only at the very end, so at most the last character
 * is removed, and only when it is a lower-case `s`.
 */
module Plural {

  /** `removePlural(str)` */
  function RemovePlural(s: string): (r: string)
    ensures s == r + "s" || (r == s && (s == [] || s[|s| - 1] != 's'))
    ensures r <= s && |s| - 1 <= |r|
  {
    if |s| > 0 && s[|s| - 1] == 's' then s[..|s| - 1] else s
  }

  /** Removing the plural undoes adding one `s`. */
  lemma RemovePluralOfPlural(w: string)
    ensures RemovePlural(w + "s") == w
  {
    assert (w + "s")[..|w|] == w;
  }

  /** A word that does not end in `s` is left alone. */
  lemma RemovePluralOfSingular(w: string)
    requires w == [] || w[|w| - 1] != 's'
    ensures RemovePlural(w) == w
  {
  }

  /** Only one `s` is removed per call, so `removePlural` is not idempotent: `"ss"` becomes `"s"`, then `""`. */
  lemma RemovePluralNotIdempotent()
    ensures RemovePlural("ss") == "s"
    ensures RemovePlural(RemovePlural("ss")) == ""
  {
    assert "ss"[..1] == "s";
    assert "s"[..0] == "";
  }
}
