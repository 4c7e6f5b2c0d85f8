/**
 * The language context (context/LanguageContext.tsx): the current
 * language, French at first, and the translation `t`, which falls back
 * from the current language's table to the French one and then to the
 * key itself. The two tables are given as maps from keys to messages.
 */
module LanguageContext {

  datatype Language = Fr | Ar

  /** The message tables of the two languages. */
  datatype Translations = Translations(fr: map<string, string>, ar: map<string, string>)

  /** What the provider holds: the tables and the current language. */
  datatype Context = Context(translations: Translations, language: Language)

  /** The table of one language. */
  function Table(translations: Translations, language: Language): map<string, string>
  {
    match language
    case Fr => translations.fr
    case Ar => translations.ar
  }

  /** A table's entry for `key`, "" when there is none (a missing entry and an empty one are both falsy). */
  function Entry(table: map<string, string>, key: string): (r: string)
    ensures key in table ==> r == table[key]
    ensures key !in table ==> r == []
  {
    if key in table then table[key] else []
  }

  /** The provider as it starts: French. */
  function Initial(translations: Translations): (c: Context)
    ensures c.language == Fr && c.translations == translations
  {
    Context(translations, Fr)
  }

  /** setLanguage: only the language changes. */
  function SetLanguage(c: Context, language: Language): (r: Context)
    ensures r.language == language && r.translations == c.translations
  {
    c.(language := language)
  }

  /**
   * `t(key)`: the current language's message if it is non-empty, else
   * the French message if it is non-empty, else the key.
   */
  function T(c: Context, key: string): (r: string)
    ensures Entry(Table(c.translations, c.language), key) != [] ==>
      r == Entry(Table(c.translations, c.language), key)
    ensures Entry(Table(c.translations, c.language), key) == [] && Entry(c.translations.fr, key) != [] ==>
      r == Entry(c.translations.fr, key)
    ensures Entry(Table(c.translations, c.language), key) == [] && Entry(c.translations.fr, key) == [] ==>
      r == key
  {
    var current := Entry(Table(c.translations, c.language), key);
    if current != [] then current
    else
      var french := Entry(c.translations.fr, key);
      if french != [] then french else key
  }

  /** Every translation is a message of one of the two tables or the key itself. */
  lemma TranslationOrigin(c: Context, key: string)
    ensures var r := T(c, key);
      r == key || (key in c.translations.fr && r == c.translations.fr[key]) ||
      (key in Table(c.translations, c.language) && r == Table(c.translations, c.language)[key])
  {
  }

  /** A translation is empty only when the key is. */
  lemma TranslationNonEmpty(c: Context, key: string)
    requires key != []
    ensures T(c, key) != []
  {
  }

  /** In French the Arabic table plays no part: the message is the French one, or the key. */
  lemma FrenchIgnoresArabic(c: Context, ar: map<string, string>, key: string)
    requires c.language == Fr
    ensures T(c, key) == T(c.(translations := c.translations.(ar := ar)), key)
    ensures T(c, key) == if Entry(c.translations.fr, key) != [] then c.translations.fr[key] else key
  {
  }

  /** A key the current language translates does not depend on the French table. */
  lemma CurrentWins(c: Context, fr: map<string, string>, key: string)
    requires c.language == Ar && Entry(c.translations.ar, key) != []
    ensures T(c, key) == c.translations.ar[key]
    ensures T(c.(translations := c.translations.(fr := fr)), key) == T(c, key)
  {
  }
}
