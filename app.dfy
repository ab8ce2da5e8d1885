/**
 * The locale machinery of app.py and routes.py: choosing the page locale
 * (get_locale), choosing the translation locale and translating a message
 * (custom_gettext), switching language (set_language), and the start-up step
 * of init_db that makes sure the default administrator exists.
 *
 * The browser's preferred language is an input: `bestMatch` stands for the
 * result of `request.accept_languages.best_match(LANGUAGES)`, which is one
 * of the supported codes or nothing.
 */
module App {
  import opened Wrappers
  import opened Store
  import opened Translations

  /** LANGUAGES. */
  const Languages: set<string> := {"fr", "en", "es"}

  /** BABEL_DEFAULT_LOCALE, also custom_gettext's own fallback. */
  const DefaultLocale: string := "fr"

  /** A browser match can only name a supported language. */
  predicate ValidMatch(bestMatch: Option<string>) {
    bestMatch.Some? ==> bestMatch.value in Languages
  }

  /** `TRANSLATIONS[locale][text]` when both lookups hit, the text itself otherwise. */
  function Translate(locale: string, text: string): (r: string)
    ensures Table(locale).Some? && text in Table(locale).value ==> r == Table(locale).value[text]
    ensures !(Table(locale).Some? && text in Table(locale).value) ==> r == text
  {
    match Table(locale)
    case Some(table) => if text in table then table[text] else text
    case None => text
  }

  /** The locale custom_gettext translates into: the session language if any, else the browser's, else French. */
  function TranslationLocale(session: Option<string>, bestMatch: Option<string>): (r: string)
    ensures session.Some? ==> r == session.value
    ensures session.None? ==> r == bestMatch.GetOr(DefaultLocale)
  {
    if session.Some? then session.value else bestMatch.GetOr(DefaultLocale)
  }

  /** custom_gettext. */
  function Gettext(session: Option<string>, bestMatch: Option<string>, text: string): (r: string)
    ensures var locale := TranslationLocale(session, bestMatch);
      Table(locale).Some? && text in Table(locale).value ==> r == Table(locale).value[text]
    ensures var locale := TranslationLocale(session, bestMatch);
      !(Table(locale).Some? && text in Table(locale).value) ==> r == text
  {
    Translate(TranslationLocale(session, bestMatch), text)
  }

  /** The page locale and the session language after get_locale. */
  datatype LocaleChoice = LocaleChoice(locale: string, session: Option<string>)

  /**
   * get_locale. A non-empty `lang` query argument is stored in the session
   * as it is, without checking it against LANGUAGES; then the session
   * language, if any, is the locale; otherwise the browser's match, else
   * French.
   */
  function GetLocale(session: Option<string>, lang: Option<string>, bestMatch: Option<string>): (r: LocaleChoice)
    ensures lang.Some? && lang.value != "" ==> r.session == lang && r.locale == lang.value
    ensures !(lang.Some? && lang.value != "") ==> r.session == session
    ensures r.session.Some? ==> r.locale == r.session.value
    ensures r.session.None? ==> r.locale == bestMatch.GetOr(DefaultLocale)
  {
    var stored := if lang.Some? && lang.value != "" then lang else session;
    if stored.Some? then LocaleChoice(stored.value, stored)
    else LocaleChoice(bestMatch.GetOr(DefaultLocale), stored)
  }

  /** set_language (routes.py:13-17): only a supported code is stored. */
  function SetLanguage(session: Option<string>, language: string): (r: Option<string>)
    ensures language in Languages ==> r == Some(language)
    ensures language !in Languages ==> r == session
  {
    if language in Languages then Some(language) else session
  }

  // ---------------------------------------------------------------- properties

  /** TRANSLATIONS['fr'] is an empty table. */
  lemma FrenchTableEmpty()
    ensures Table("fr") == Some(map[])
  {
  }

  /** The French table is empty, so French gives every message back unchanged. */
  lemma FrenchIsIdentity(bestMatch: Option<string>, text: string)
    ensures Gettext(Some("fr"), bestMatch, text) == text
    ensures Gettext(None, None, text) == text
  {
    FrenchTableEmpty();
    assert text !in Table("fr").value;
  }

  /** A locale with no table, such as one stored through `lang`, translates nothing. */
  lemma UnknownLocaleIsIdentity(locale: string, bestMatch: Option<string>, text: string)
    requires locale !in Languages
    ensures Gettext(Some(locale), bestMatch, text) == text
  {
  }

  /** The page locale and the translation locale agree: get_locale without `lang` picks what custom_gettext uses. */
  lemma PageAndTextLocaleAgree(session: Option<string>, bestMatch: Option<string>)
    ensures GetLocale(session, None, bestMatch).locale == TranslationLocale(session, bestMatch)
  {
  }

  /** With no `lang` and no session language, the locale is the browser's match or French, hence supported. */
  lemma FreshVisitorLocale(bestMatch: Option<string>)
    requires ValidMatch(bestMatch)
    ensures GetLocale(None, None, bestMatch).locale in Languages
    ensures GetLocale(None, None, bestMatch).session == None
  {
  }

  /** A `lang` choice sticks: later requests without `lang` keep it, whatever the browser says. */
  lemma LangSticks(session: Option<string>, lang: string, bestMatch: Option<string>, laterMatch: Option<string>)
    requires lang != ""
    ensures var first := GetLocale(session, Some(lang), bestMatch);
      GetLocale(first.session, None, laterMatch) == LocaleChoice(lang, Some(lang))
  {
  }

  /** While the session holds a supported code, no request without `lang` and no set_language call leaves that set. */
  lemma SupportedSessionStays(session: Option<string>, language: string, bestMatch: Option<string>)
    requires session.Some? ==> session.value in Languages
    requires ValidMatch(bestMatch)
    ensures var s := SetLanguage(session, language); s.Some? ==> s.value in Languages
    ensures GetLocale(session, None, bestMatch).locale in Languages
  {
  }

  /** `?lang=de` is stored and served although set_language refuses "de". */
  lemma UnvalidatedLang()
    ensures GetLocale(None, Some("de"), Some("en")) == LocaleChoice("de", Some("de"))
    ensures SetLanguage(None, "de") == None
    ensures Gettext(Some("de"), Some("en"), "Panier") == "Panier"
  {
    UnknownLocaleIsIdentity("de", Some("en"), "Panier");
  }

  // ---------------------------------------------------------------- default administrator

  const AdminUsername: string := "admin"
  const AdminEmail: string := "admin@velours-parfum.com"

  /** How start-up ends: the app serves these tables, or init_db raised and the app never starts. */
  datatype StartUp = Started(store: Store) | StartFailed

  /**
   * init_db's second step: when no user has the administrator's email, add
   * one with admin rights under the next free id. `passwordHash` stands for
   * `generate_password_hash('admin123')`. When the name "admin" is already
   * taken by a user with another email, the commit breaks the unique
   * username constraint: init_db raises, nothing is stored, and since it runs
   * when app.py is imported, the app does not start.
   */
  function EnsureAdmin(s: Store, passwordHash: string): (r: StartUp)
    ensures EmailInUse(s.users, AdminEmail) ==> r == Started(s)
    ensures !EmailInUse(s.users, AdminEmail) && UsernameInUse(s.users, AdminUsername) ==> r == StartFailed
    ensures !EmailInUse(s.users, AdminEmail) && !UsernameInUse(s.users, AdminUsername) ==>
      && r.Started?
      && r.store.users == s.users[s.nextUserId := User(AdminUsername, AdminEmail, passwordHash, true)]
      && r.store.nextUserId == s.nextUserId + 1
      && r.store.(users := s.users, nextUserId := s.nextUserId) == s
  {
    if EmailInUse(s.users, AdminEmail) then Started(s)
    else if UsernameInUse(s.users, AdminUsername) then StartFailed
    else
      var id := s.nextUserId;
      Started(s.(users := s.users[id := User(AdminUsername, AdminEmail, passwordHash, true)], nextUserId := id + 1))
  }

  /** After a start-up that succeeds some user owns the administrator's email, and starting again changes nothing. */
  lemma EnsureAdminIdempotent(s: Store, passwordHash: string, passwordHash': string)
    ensures var r := EnsureAdmin(s, passwordHash);
      r.Started? ==> EmailInUse(r.store.users, AdminEmail) && EnsureAdmin(r.store, passwordHash') == r
  {
    var r := EnsureAdmin(s, passwordHash);
    if r.Started? && !EmailInUse(s.users, AdminEmail) {
      assert r.store.users[s.nextUserId].email == AdminEmail;
    }
  }

  /**
   * A user who registered the administrator's email first keeps it, and no
   * administrator is created: start-up does not guarantee that anyone has
   * admin rights.
   */
  lemma SquattedAdminEmail(s: Store, id: Id, passwordHash: string)
    requires id in s.users && s.users[id].email == AdminEmail && !s.users[id].isAdmin
    requires forall u :: u in s.users ==> !s.users[u].isAdmin
    ensures EnsureAdmin(s, passwordHash) == Started(s)
    ensures forall u :: u in s.users ==> !EnsureAdmin(s, passwordHash).store.users[u].isAdmin
  {
  }

  /** A user named "admin" under another email stops every start-up. */
  lemma SquattedAdminName(s: Store, id: Id, passwordHash: string)
    requires id in s.users && s.users[id].username == AdminUsername
    requires forall u :: u in s.users ==> s.users[u].email != AdminEmail
    ensures EnsureAdmin(s, passwordHash) == StartFailed
  {
    assert !EmailInUse(s.users, AdminEmail);
  }

  /** A start-up that succeeds keeps the store consistent and the credentials unique. */
  lemma EnsureAdminConsistent(s: Store, passwordHash: string)
    requires Consistent(s) && UniqueCredentials(s.users)
    ensures var r := EnsureAdmin(s, passwordHash);
      r.Started? ==> Consistent(r.store) && UniqueCredentials(r.store.users)
  {
    var r := EnsureAdmin(s, passwordHash);
    if r.Started? && !EmailInUse(s.users, AdminEmail) {
      forall a, b | a in r.store.users && b in r.store.users && a != b
        ensures r.store.users[a].email != r.store.users[b].email && r.store.users[a].username != r.store.users[b].username
      {
        if a == s.nextUserId {
          assert b in s.users;
        } else if b == s.nextUserId {
          assert a in s.users;
        }
      }
    }
  }
}
