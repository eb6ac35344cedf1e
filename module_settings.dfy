/**
 * The module-level configuration read from the `DDFModule` element's
 * attributes. Each setting has a default; the tool passes the default to the
 * attribute lookup as text ("%c" or "%d") and converts whatever comes back,
 * so an absent attribute must come back as the default.
 */
module ModuleDefaults {
  import opened Wrappers
  import opened CText
  import opened XmlTree
  import opened Encoder

  /** A one-character setting: the first byte of the attribute, NUL for an empty one. */
  function CharSetting(n: Node, key: string, default: char): char
  {
    FirstChar(AttrOr(n, key, [default]))
  }

  /** An integer setting: `atoi` of the attribute, or of the current value printed with "%d". */
  function IntSetting(n: Node, key: string, current: int): int
  {
    Atoi(AttrOr(n, key, FormatInt(current)))
  }

  /** An integer setting keeps its current value when its attribute is absent, and is `atoi` of the attribute otherwise. */
  lemma IntSettingValue(n: Node, key: string, current: int)
    ensures IntSetting(n, key, current) == match Attr(n, key) case None => current case Some(v) => Atoi(v)
  {
    if Attr(n, key).None? {
      AtoiFormatInt(current);
    }
  }

  /** The arguments of `Initialize`, given the tag width inferred from the field definitions. */
  function Settings(m: Node, inferredWidth: nat): ModuleSettings
  {
    ModuleSettings(
      CharSetting(m, "_interchangeLevel", '3'),
      CharSetting(m, "_leaderIden", 'L'),
      CharSetting(m, "_inlineCodeExtensionIndicator", 'E'),
      CharSetting(m, "_versionNumber", '1'),
      CharSetting(m, "_appIndicator", ' '),
      Snprintf(AttrOr(m, "_extendedCharSet", " ! "), 4),
      IntSetting(m, "_sizeFieldLength", 3),
      IntSetting(m, "_sizeFieldPos", 4),
      IntSetting(m, "_sizeFieldTag", inferredWidth))
  }

  /**
   * What `Initialize` receives: each setting is the default when its
   * attribute is absent; a character setting is otherwise the attribute's
   * first byte (NUL when empty), the extended character set the attribute
   * cut to three bytes, and an integer setting `atoi` of the attribute, so
   * an explicit `_sizeFieldTag` overrides the inferred tag width.
   */
  lemma SettingsFromAttributes(m: Node, inferredWidth: nat)
    ensures var s := Settings(m, inferredWidth);
      && s.interchangeLevel == (match Attr(m, "_interchangeLevel") case None => '3' case Some(v) => FirstChar(v))
      && s.leaderIden == (match Attr(m, "_leaderIden") case None => 'L' case Some(v) => FirstChar(v))
      && s.codeExtensionIndicator == (match Attr(m, "_inlineCodeExtensionIndicator") case None => 'E' case Some(v) => FirstChar(v))
      && s.versionNumber == (match Attr(m, "_versionNumber") case None => '1' case Some(v) => FirstChar(v))
      && s.appIndicator == (match Attr(m, "_appIndicator") case None => ' ' case Some(v) => FirstChar(v))
      && s.extendedCharSet == (match Attr(m, "_extendedCharSet") case None => " ! " case Some(v) => if |v| <= 3 then v else v[..3])
      && s.sizeFieldLength == (match Attr(m, "_sizeFieldLength") case None => 3 case Some(v) => Atoi(v))
      && s.sizeFieldPos == (match Attr(m, "_sizeFieldPos") case None => 4 case Some(v) => Atoi(v))
      && s.sizeFieldTag == (match Attr(m, "_sizeFieldTag") case None => inferredWidth case Some(v) => Atoi(v))
  {
    IntSettingValue(m, "_sizeFieldLength", 3);
    IntSettingValue(m, "_sizeFieldPos", 4);
    IntSettingValue(m, "_sizeFieldTag", inferredWidth);
  }

  /** A `DDFModule` element without any of the attributes yields the defaults '3', 'L', 'E', '1', ' ', " ! ", 3 and 4, and the inferred tag width. */
  lemma DefaultSettings(inferredWidth: nat)
    ensures Settings(Element("DDFModule", map[], []), inferredWidth)
         == ModuleSettings('3', 'L', 'E', '1', ' ', " ! ", 3, 4, inferredWidth)
  {
    SettingsFromAttributes(Element("DDFModule", map[], []), inferredWidth);
  }
}
