/**
 * The translation overlay of messages (app/routers/translate.py). Translating
 * a stored message replaces its content by the translation and keeps the
 * content it had before its first translation; restoring puts that original
 * back. The translation service is a parameter: its reply to the one request
 * the route makes.
 */
module Translation {
  import opened Common
  import opened Schema

  /** What the translation service answered. */
  datatype ServiceReply =
    | Answered(text: string)        // status 200 with a first translation
    | Refused(body: string)         // any other status, with the body of the reply
    | Failed(reason: string)        // no usable reply: transport error or malformed body

  /** The reply of the translate route. */
  datatype Translated = Translated(translatedText: string, sourceText: string, targetLang: string)

  /** The reply of the restore route. */
  datatype Restored = Restored(originalText: string, translatedText: string)

  /** The user named by the token must have a row: 401 otherwise. */
  function Caller(t: Tables, username: string): (r: Result<nat>)
    ensures r.Ok? <==> UserByName(t.users, username).Some?
    ensures r.Err? ==> r.error == Unauthorized("Invalid authentication credentials")
  {
    match UserByName(t.users, username)
    case None => Err(Unauthorized("Invalid authentication credentials"))
    case Some(me) => Ok(me)
  }

  /** A message id in the request names a row only when it is present and not 0. */
  predicate GivenId(id: Option<int>)
  {
    id.Some? && id.value != 0
  }

  /** The message row named by an id, if any; a negative id names none. */
  function Row(t: Tables, id: int): (r: Option<nat>)
    ensures r.Some? <==> id >= 0 && id as nat in t.messages
    ensures r.Some? ==> r.value == id as nat
  {
    if id >= 0 && id as nat in t.messages then Some(id as nat) else None
  }

  /**
   * The message after a translation into `lang`: the translation becomes the
   * content, and the content before the first translation is kept as the
   * original (an empty original counts as none).
   */
  function WithTranslation(m: Message, text: string, lang: string, now: DateTime): (r: Message)
    ensures r.content == text && r.isTranslated && r.translatedTo == Some(lang) && r.translatedAt == Some(now)
    ensures r.originalContent == (if Truthy(m.originalContent) then m.originalContent else Some(m.content))
    ensures r.(content := m.content, originalContent := m.originalContent, isTranslated := m.isTranslated,
               translatedAt := m.translatedAt, translatedTo := m.translatedTo) == m
  {
    var kept := if Truthy(m.originalContent) then m.originalContent else Some(m.content);
    m.(originalContent := kept, content := text, isTranslated := true, translatedAt := Some(now), translatedTo := Some(lang))
  }

  /** The message after a restore: the original is the content again and the translation marks are cleared. */
  function WithOriginal(m: Message): (r: Message)
    requires Truthy(m.originalContent)
    ensures r.content == m.originalContent.value && r.originalContent == m.originalContent
    ensures !r.isTranslated && r.translatedAt == None && r.translatedTo == None
    ensures r.(content := m.content, isTranslated := m.isTranslated, translatedAt := m.translatedAt,
               translatedTo := m.translatedTo) == m
  {
    m.(content := m.originalContent.value, isTranslated := false, translatedAt := None, translatedTo := None)
  }

  /**
   * The checks of translate_text before the service is asked, in order: the
   * caller (401), text and language (400), the service key (503), and the
   * message when an id is given (404). The result is the message row, if any.
   */
  function TranslateGuard(t: Tables, username: string, id: Option<int>, text: string, lang: string, apiKey: string)
    : (r: Result<Option<nat>>)
    ensures Caller(t, username).Err? ==> r == Err(Caller(t, username).error)
    ensures Caller(t, username).Ok? && (text == "" || lang == "") ==> r == Err(BadRequest("Text and target language are required"))
    ensures Caller(t, username).Ok? && text != "" && lang != "" && apiKey == "" ==>
      r == Err(ServiceUnavailable("Translation service is not configured"))
    ensures r.Ok? <==> (Caller(t, username).Ok? && text != "" && lang != "" && apiKey != "" &&
      (GivenId(id) ==> Row(t, id.value).Some?))
    ensures r.Err? && Caller(t, username).Ok? && text != "" && lang != "" && apiKey != "" ==>
      r.error == NotFound("Message not found")
    ensures r.Ok? ==> r.value == (if GivenId(id) then Row(t, id.value) else None)
  {
    match Caller(t, username)
    case Err(e) => Err(e)
    case Ok(_) =>
      if text == "" || lang == "" then Err(BadRequest("Text and target language are required"))
      else if apiKey == "" then Err(ServiceUnavailable("Translation service is not configured"))
      else if !GivenId(id) then Ok(None)
      else match Row(t, id.value)
        case None => Err(NotFound("Message not found"))
        case Some(k) => Ok(Some(k))
  }

  /**
   * POST /api/translate. A refused request and a failed one both end as 500:
   * the route raises its own 503 inside the block whose handler turns every
   * exception into "Translation failed: ...". An empty translation is
   * returned but not stored.
   */
  method TranslateText(db: Db, username: string, id: Option<int>, text: string, lang: string, apiKey: string,
                       reply: ServiceReply, now: DateTime) returns (r: Result<Translated>)
    modifies db
    ensures TranslateGuard(old(db.t), username, id, text, lang, apiKey).Err? ==>
      r == Err(TranslateGuard(old(db.t), username, id, text, lang, apiKey).error) && db.t == old(db.t)
    ensures TranslateGuard(old(db.t), username, id, text, lang, apiKey).Ok? ==>
      var row := TranslateGuard(old(db.t), username, id, text, lang, apiKey).value;
      match reply
      case Refused(body) =>
        r == Err(InternalError("Translation failed: 503: Translation service error: " + body)) && db.t == old(db.t)
      case Failed(reason) => r == Err(InternalError("Translation failed: " + reason)) && db.t == old(db.t)
      case Answered(out) =>
        r == Ok(Translated(out, text, lang)) &&
        if row.Some? && out != "" then
          db.t == old(db.t).(messages := old(db.t).messages[row.value := WithTranslation(old(db.t).messages[row.value], out, lang, now)])
        else db.t == old(db.t)
  {
    var g := TranslateGuard(db.t, username, id, text, lang, apiKey);
    if g.Err? {
      return Err(g.error);
    }
    match reply {
      case Refused(body) =>
        return Err(InternalError("Translation failed: 503: Translation service error: " + body));
      case Failed(reason) =>
        return Err(InternalError("Translation failed: " + reason));
      case Answered(out) =>
        if g.value.Some? && out != "" {
          var k := g.value.value;
          var m := db.t.messages[k];
          if !Truthy(m.originalContent) {
            m := m.(originalContent := Some(m.content));
          }
          m := m.(content := out, isTranslated := true, translatedAt := Some(now), translatedTo := Some(lang));
          db.t := db.t.(messages := db.t.messages[k := m]);
        }
        r := Ok(Translated(out, text, lang));
    }
  }

  /** The checks of restore_original_text in order: the caller (401), the message (404), a translation to undo (400). */
  function RestoreGuard(t: Tables, username: string, id: int): (r: Result<nat>)
    ensures Caller(t, username).Err? ==> r == Err(Caller(t, username).error)
    ensures Caller(t, username).Ok? && Row(t, id).None? ==> r == Err(NotFound("Message not found"))
    ensures r.Ok? <==> (Caller(t, username).Ok? && Row(t, id).Some? &&
      t.messages[id as nat].isTranslated && Truthy(t.messages[id as nat].originalContent))
    ensures r.Err? && Caller(t, username).Ok? && Row(t, id).Some? ==> r.error == BadRequest("Message has not been translated")
    ensures r.Ok? ==> r.value == id as nat
  {
    match Caller(t, username)
    case Err(e) => Err(e)
    case Ok(_) =>
      match Row(t, id)
      case None => Err(NotFound("Message not found"))
      case Some(k) =>
        var m := t.messages[k];
        if !m.isTranslated || !Truthy(m.originalContent) then Err(BadRequest("Message has not been translated"))
        else Ok(k)
  }

  /** POST /api/translate/restore/{message_id}. */
  method RestoreOriginalText(db: Db, username: string, id: int) returns (r: Result<Restored>)
    modifies db
    ensures RestoreGuard(old(db.t), username, id).Err? ==>
      r == Err(RestoreGuard(old(db.t), username, id).error) && db.t == old(db.t)
    ensures RestoreGuard(old(db.t), username, id).Ok? ==>
      var k := RestoreGuard(old(db.t), username, id).value;
      var m := old(db.t).messages[k];
      r == Ok(Restored(m.originalContent.value, m.content)) &&
      db.t == old(db.t).(messages := old(db.t).messages[k := WithOriginal(m)])
  {
    var g := RestoreGuard(db.t, username, id);
    if g.Err? {
      return Err(g.error);
    }
    var k := g.value;
    var m := db.t.messages[k];
    var translated := m.content;
    m := m.(content := m.originalContent.value, isTranslated := false, translatedAt := None, translatedTo := None);
    db.t := db.t.(messages := db.t.messages[k := m]);
    r := Ok(Restored(m.content, translated));
  }

  /**
   * Translating a message any number of times keeps the content it had before
   * the first translation, and restoring then gives that content back with
   * every other column of the row as it was. (An empty content would be kept
   * as an empty original, which counts as none: the next translation would
   * replace it, and a restore would be refused.)
   */
  lemma TranslateThenRestore(m: Message, text1: string, lang1: string, now1: DateTime, text2: string, lang2: string, now2: DateTime)
    requires !Truthy(m.originalContent) && m.content != ""
    ensures var once := WithTranslation(m, text1, lang1, now1);
      var twice := WithTranslation(once, text2, lang2, now2);
      twice.originalContent == Some(m.content) &&
      WithOriginal(once).content == m.content &&
      WithOriginal(twice).content == m.content &&
      WithOriginal(twice) == m.(originalContent := Some(m.content), isTranslated := false, translatedAt := None, translatedTo := None)
  {
  }

  /** A message that was never translated cannot be restored. */
  lemma RestoreNeedsATranslation(t: Tables, username: string, id: int)
    requires id >= 0 && id as nat in t.messages && !t.messages[id as nat].isTranslated
    ensures RestoreGuard(t, username, id).Err?
  {
  }
}
