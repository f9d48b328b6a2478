/**
 * The data-annotation validators the pages declare on their bound inputs.
 * Each one treats `null` as valid except `[Required]`, as the .NET attributes do.
 */
module Annotations {
  import opened Wrappers
  import opened Text

  /** `[Required]` with the default `AllowEmptyStrings = false`: present and not white space only. */
  predicate Required(s: Option<string>) {
    !NullOrBlank(s)
  }

  /** `[StringLength(n)]` / `[MaxLength(n)]` on a string. */
  predicate LengthAtMost(s: Option<string>, n: nat) {
    s.None? || |s.value| <= n
  }

  /** `s.StartsWith(p, StringComparison.OrdinalIgnoreCase)`. */
  predicate StartsWithIgnoreCase(s: string, p: string) {
    |p| <= |s| && EqualsIgnoreCase(s[..|p|], p)
  }

  /** `[Url]`: null, or a string starting with `http://`, `https://` or `ftp://` in any case. */
  predicate UrlAttribute(s: Option<string>) {
    || s.None?
    || StartsWithIgnoreCase(s.value, "http://")
    || StartsWithIgnoreCase(s.value, "https://")
    || StartsWithIgnoreCase(s.value, "ftp://")
  }
}
