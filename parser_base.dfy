/** What every placeholder parser shares: the `{{key}}` token it matches. */
module ParserBase {
  import opened Strings

  /**
   * The placeholder token for `key`: the key between double braces. The key
   * can be read back from the token, and the token is never empty, so it is
   * always a valid pattern to replace.
   */
  function TemplateKey(key: string): (t: string)
    ensures |t| == |key| + 4
    ensures t[..2] == "{{" && t[2..|t| - 2] == key && t[|t| - 2..] == "}}"
  {
    "{{" + key + "}}"
  }

  /** Content that holds no `{{` holds no placeholder token at all. */
  lemma {:induction false} PlaceholderNeedsOpeningBraces(s: string, key: string)
    ensures Contains(s, TemplateKey(key)) ==> Contains(s, "{{")
  {
    if Contains(s, TemplateKey(key)) {
      assert TemplateKey(key) == "{{" + (key + "}}");
      ContainsPrefixOfPattern(s, "{{", key + "}}");
    }
  }
}
