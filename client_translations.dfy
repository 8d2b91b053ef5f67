/**
 * The browser side of message translation (app/static/js/translations.js):
 * a per-page cache of translations keyed by text and language, a copy of
 * each message translation kept in the browser's local storage under the
 * message id (at most 100 of them, the most recent kept), and the button that
 * switches a message between its original and its translated text.
 *
 * The stored object is modelled as the list of its (message id, entry)
 * pairs in enumeration order; the JSON text local storage holds, the clock
 * (`Date.now()`) and the request to the server are parameters.
 */
module ClientTranslations {
  import opened Common
  import opened Sorting

  /** One stored translation; the timestamp is in milliseconds since the epoch. */
  datatype Entry = Entry(translatedText: string, originalText: string, targetLang: string, timestamp: int)

  /** A message id with its stored translation. */
  type Pair = (string, Entry)

  /** The most translations local storage keeps. */
  const MaxStored: nat := 100

  /** What `saveTranslation` starts from: the stored object, or an empty one when nothing is stored. */
  function Entries(stored: Option<seq<Pair>>): (s: seq<Pair>)
    ensures stored.None? ==> s == []
    ensures stored.Some? ==> s == stored.value
  {
    if stored.None? then [] else stored.value
  }

  /** Some pair of `s` is stored under `id`. */
  predicate HasId(s: seq<Pair>, id: string)
  {
    exists p :: p in s && p.0 == id
  }

  /** No two different entries are stored under one id, as in a JavaScript object. */
  predicate OneEntryPerId(s: seq<Pair>)
  {
    forall p, q :: p in s && q in s && p.0 == q.0 ==> p == q
  }

  /**
   * `translations[messageId] = entry`: an id already stored keeps its place
   * and gets the new entry; a new id goes after all the others.
   */
  function Put(s: seq<Pair>, id: string, e: Entry): (r: seq<Pair>)
    ensures (id, e) in r
    ensures forall p :: p in r <==> p == (id, e) || (p in s && p.0 != id)
    ensures |r| == if HasId(s, id) then |s| else |s| + 1
  {
    if HasId(s, id) then
      var r := seq(|s|, i requires 0 <= i < |s| => if s[i].0 == id then (id, e) else s[i]);
      assert forall p :: p in r ==> p == (id, e) || (p in s && p.0 != id);
      assert forall p :: p in s && p.0 != id ==> p in r by {
        forall p | p in s && p.0 != id ensures p in r {
          var i :| 0 <= i < |s| && s[i] == p;
          assert r[i] == p;
        }
      }
      var j :| 0 <= j < |s| && s[j].0 == id;
      assert r[j] == (id, e);
      r
    else
      s + [(id, e)]
  }

  /** The trimming order: oldest timestamp first. */
  function OlderFirst(): (Pair, Pair) -> bool
  {
    (a: Pair, b: Pair) => a.1.timestamp <= b.1.timestamp
  }

  lemma OlderFirstIsTotal()
    ensures TotalPreorder(OlderFirst())
  {
  }

  /**
   * The object `saveTranslation` stores: the entry put under its id, then,
   * when more than 100 remain, the pairs sorted oldest first and only the
   * last 100 kept.
   */
  function Saved(s: seq<Pair>, id: string, e: Entry): seq<Pair>
  {
    var put := Put(s, id, e);
    if |put| <= MaxStored then put
    else SortWith(put, OlderFirst())[|put| - MaxStored..]
  }

  /** Every pair `Saved` keeps comes from the object after the put, and at most 100 are kept. */
  lemma SavedIsBounded(s: seq<Pair>, id: string, e: Entry)
    ensures |Saved(s, id, e)| <= MaxStored
    ensures |Put(s, id, e)| <= MaxStored ==> Saved(s, id, e) == Put(s, id, e)
    ensures |Put(s, id, e)| > MaxStored ==> |Saved(s, id, e)| == MaxStored
    ensures forall p :: p in Saved(s, id, e) ==> p in Put(s, id, e)
  {
    var put := Put(s, id, e);
    if |put| > MaxStored {
      var q := SortWith(put, OlderFirst());
      forall p | p in q[|put| - MaxStored..] ensures p in put {
        assert p in q;
        assert p in multiset(q);
      }
    }
  }

  /** A pair dropped by the trimming is no newer than any pair kept. */
  lemma SavedDropsTheOldest(s: seq<Pair>, id: string, e: Entry)
    ensures forall p, k :: p in Put(s, id, e) && p !in Saved(s, id, e) && k in Saved(s, id, e) ==>
      p.1.timestamp <= k.1.timestamp
  {
    var put := Put(s, id, e);
    if |put| > MaxStored {
      var q := SortWith(put, OlderFirst());
      var cut := |put| - MaxStored;
      OlderFirstIsTotal();
      forall p, k | p in put && p !in q[cut..] && k in q[cut..] ensures p.1.timestamp <= k.1.timestamp {
        assert p in multiset(put);
        assert p in q;
        var i :| 0 <= i < |q| && q[i] == p;
        var j :| 0 <= j < |q[cut..]| && q[cut..][j] == k;
        assert q[cut + j] == k;
        assert OlderFirst()(q[i], q[cut + j]);
      }
    }
  }

  /**
   * The entry just saved is kept: always while fewer than 100 were stored,
   * and otherwise when it is newer than every stored one.
   */
  lemma SavedKeepsTheNewEntry(s: seq<Pair>, id: string, e: Entry)
    ensures |s| < MaxStored ==> (id, e) in Saved(s, id, e)
    ensures (forall p :: p in s ==> p.1.timestamp < e.timestamp) ==> (id, e) in Saved(s, id, e)
  {
    var put := Put(s, id, e);
    if |put| > MaxStored && forall p :: p in s ==> p.1.timestamp < e.timestamp {
      NewestSortsLast(put, (id, e));
      var q := SortWith(put, OlderFirst());
      assert q[|put| - MaxStored..][MaxStored - 1] == q[|q| - 1];
    }
  }

  /** A pair newer than every other one ends up last once the pairs are sorted oldest first. */
  lemma NewestSortsLast(put: seq<Pair>, x: Pair)
    requires x in put
    requires forall p :: p in put && p != x ==> p.1.timestamp < x.1.timestamp
    ensures var q := SortWith(put, OlderFirst()); |q| == |put| && q[|q| - 1] == x
  {
    var q := SortWith(put, OlderFirst());
    assert exists i :: 0 <= i < |q| && q[i] == x by {
      assert x in multiset(q);
    }
    var i :| 0 <= i < |q| && q[i] == x;
    SortedLastIsLatest(put, i);
    var last := q[|q| - 1];
    assert last in put by {
      assert last in multiset(put);
    }
    assert last.1.timestamp >= x.1.timestamp;
  }

  /** Sorted oldest first, the last pair is at least as recent as any other. */
  lemma SortedLastIsLatest(put: seq<Pair>, i: nat)
    requires i < |put|
    ensures var q := SortWith(put, OlderFirst());
      q[i].1.timestamp <= q[|q| - 1].1.timestamp
  {
    var q := SortWith(put, OlderFirst());
    OlderFirstIsTotal();
    assert Sorted(q, OlderFirst());
    if i < |q| - 1 {
      assert OlderFirst()(q[i], q[|q| - 1]);
    }
  }

  /** Saving keeps one entry per id. */
  lemma SavedKeepsOneEntryPerId(s: seq<Pair>, id: string, e: Entry)
    requires OneEntryPerId(s)
    ensures OneEntryPerId(Saved(s, id, e))
  {
    SavedIsBounded(s, id, e);
  }

  /** `translations[messageId]`: the entry stored under `id`, if any. */
  function Lookup(s: seq<Pair>, id: string): (r: Option<Entry>)
    ensures r.Some? ==> (id, r.value) in s
    ensures r.None? <==> !HasId(s, id)
  {
    if s == [] then None
    else if s[0].0 == id then Some(s[0].1)
    else
      var r := Lookup(s[1..], id);
      assert forall p :: p in s ==> p == s[0] || p in s[1..];
      r
  }

  /** `getStoredTranslation`: nothing when local storage holds no object or no entry for the id. */
  function StoredTranslation(stored: Option<seq<Pair>>, id: string): (r: Option<Entry>)
    ensures stored.None? ==> r.None?
    ensures stored.Some? ==> (r.None? <==> !HasId(stored.value, id))
    ensures r.Some? ==> stored.Some? && (id, r.value) in stored.value
  {
    if stored.None? then None else Lookup(stored.value, id)
  }

  /**
   * The round trip: after a save, reading the id back gives the entry just
   * saved, as long as it was not trimmed away (fewer than 100 were stored, or
   * it is the newest).
   */
  lemma SaveThenRead(stored: Option<seq<Pair>>, id: string, e: Entry)
    requires OneEntryPerId(Entries(stored))
    requires |Entries(stored)| < MaxStored || forall p :: p in Entries(stored) ==> p.1.timestamp < e.timestamp
    ensures StoredTranslation(Some(Saved(Entries(stored), id, e)), id) == Some(e)
  {
    var s := Entries(stored);
    SavedKeepsTheNewEntry(s, id, e);
    SavedKeepsOneEntryPerId(s, id, e);
  }

  // ---------------------------------------------------------------------
  // The translation cache

  /** `getCacheKey`. */
  function CacheKey(text: string, lang: string): (k: string)
    ensures |k| == |text| + 1 + |lang| && k[|text|] == '|'
  {
    text + "|" + lang
  }

  /**
   * Language codes hold no '|', so two cache keys are equal only for the same
   * text and language, even when the texts hold a '|'.
   */
  lemma CacheKeyInjective(text1: string, lang1: string, text2: string, lang2: string)
    requires '|' !in lang1 && '|' !in lang2
    requires CacheKey(text1, lang1) == CacheKey(text2, lang2)
    ensures text1 == text2 && lang1 == lang2
  {
    var k := CacheKey(text1, lang1);
    if |lang1| == |lang2| {
      assert text1 == k[..|text1|];
      assert text2 == k[..|text2|];
      assert lang1 == k[|text1| + 1..];
    }
  }

  /** The cache answers for the key: it holds a non-empty translation under it. */
  predicate Hit(cache: map<string, string>, key: string)
  {
    key in cache && cache[key] != ""
  }

  /** The translation state of one chat page: its cache and the browser's local storage. */
  class TranslationClient {
    var cache: map<string, string>
    var stored: Option<seq<Pair>>

    constructor (stored: Option<seq<Pair>>)
      ensures cache == map[] && this.stored == stored
    {
      cache := map[];
      this.stored := stored;
    }

    /** `saveTranslation`, with `now` the clock reading. */
    method SaveTranslation(id: string, translatedText: string, originalText: string, targetLang: string, now: int)
      modifies this
      ensures stored == Some(Saved(Entries(old(stored)), id, Entry(translatedText, originalText, targetLang, now)))
      ensures cache == old(cache)
    {
      var translations := Entries(stored);
      translations := Put(translations, id, Entry(translatedText, originalText, targetLang, now));
      if |translations| > MaxStored {
        var sorted := SortWith(translations, OlderFirst());
        translations := sorted[|sorted| - MaxStored..];
      }
      stored := Some(translations);
    }

    /**
     * `translateMessage`. A cache hit answers without a request and, for a
     * message, saves the cached text; otherwise `reply` is what the request
     * brings back, None when it fails: a failure changes nothing and answers
     * null, a reply is cached and, for a message, saved.
     */
    method TranslateMessage(messageId: Option<string>, text: string, targetLang: string, reply: Option<string>,
                            now: int) returns (r: Option<string>)
      modifies this
      ensures var key := CacheKey(text, targetLang);
        Hit(old(cache), key) ==>
          r == Some(old(cache)[key]) && cache == old(cache) &&
          stored == (if Truthy(messageId)
                     then Some(Saved(Entries(old(stored)), messageId.value, Entry(old(cache)[key], text, targetLang, now)))
                     else old(stored))
      ensures var key := CacheKey(text, targetLang);
        !Hit(old(cache), key) && reply.None? ==> r == None && cache == old(cache) && stored == old(stored)
      ensures var key := CacheKey(text, targetLang);
        !Hit(old(cache), key) && reply.Some? ==>
          r == reply && cache == old(cache)[key := reply.value] &&
          stored == (if Truthy(messageId)
                     then Some(Saved(Entries(old(stored)), messageId.value, Entry(reply.value, text, targetLang, now)))
                     else old(stored))
    {
      var key := CacheKey(text, targetLang);
      if key in cache && cache[key] != "" {
        if messageId.Some? && messageId.value != "" {
          SaveTranslation(messageId.value, cache[key], text, targetLang, now);
        }
        return Some(cache[key]);
      }
      if reply.None? {
        return None;
      }
      cache := cache[key := reply.value];
      if messageId.Some? && messageId.value != "" {
        SaveTranslation(messageId.value, reply.value, text, targetLang, now);
      }
      r := reply;
    }
  }

  /**
   * A non-empty reply is answered from the cache the next time: the same text
   * and language hit, and the hit gives back the reply.
   */
  lemma ReplyIsCached(cache: map<string, string>, text: string, targetLang: string, reply: string)
    requires reply != ""
    ensures var key := CacheKey(text, targetLang);
      Hit(cache[key := reply], key) && cache[key := reply][key] == reply
  {
  }

  // ---------------------------------------------------------------------
  // toggleOriginalText

  const OriginalLabel: string := "<i class=\"fas fa-language\"></i> Original"
  const TranslatedLabel: string := "<i class=\"fas fa-language\"></i> Translated"

  /**
   * What the toggle reads and writes of a message element: the shown text,
   * the `translated` class, the two texts kept in its data attributes
   * (missing when absent), and the label of its show-original button (None
   * when it has none).
   */
  datatype ElementView = ElementView(content: string, translated: bool, originalText: Option<string>,
                                     translatedText: Option<string>, button: Option<string>)

  /** The element after `toggleOriginalText`. */
  function Toggled(v: ElementView): (w: ElementView)
    ensures w.originalText == v.originalText && w.translatedText == v.translatedText
    ensures w.translated != v.translated <==>
      (if v.translated then Truthy(v.originalText) else Truthy(v.translatedText))
    ensures w.translated == v.translated ==> w == v
    ensures w.translated && !v.translated ==> Truthy(v.translatedText) && w.content == v.translatedText.value
    ensures !w.translated && v.translated ==> Truthy(v.originalText) && w.content == v.originalText.value
    ensures w.button.Some? <==> v.button.Some?
  {
    if v.translated then
      if Truthy(v.originalText) then
        v.(content := v.originalText.value, translated := false,
           button := if v.button.Some? then Some(TranslatedLabel) else None)
      else v
    else
      if Truthy(v.translatedText) then
        v.(content := v.translatedText.value, translated := true,
           button := if v.button.Some? then Some(OriginalLabel) else None)
      else v
  }

  /**
   * The element shows what its class says: the translated text under the
   * `translated` class, else the original text when there is one, and a
   * button labelled with the text it switches to.
   */
  predicate Consistent(v: ElementView)
  {
    (v.translated ==>
      Truthy(v.translatedText) && v.content == v.translatedText.value &&
      (v.button.None? || v.button == Some(OriginalLabel))) &&
    (!v.translated && Truthy(v.originalText) ==>
      v.content == v.originalText.value && (v.button.None? || v.button == Some(TranslatedLabel)))
  }

  /** A toggle keeps the element consistent. */
  lemma ToggleKeepsConsistent(v: ElementView)
    requires Consistent(v)
    ensures Consistent(Toggled(v))
  {
  }

  /**
   * With both texts present, a consistent element switches on every toggle,
   * and two toggles bring it back as it was.
   */
  lemma ToggleTwiceRestores(v: ElementView)
    requires Consistent(v) && Truthy(v.originalText) && Truthy(v.translatedText)
    ensures Toggled(v).translated == !v.translated
    ensures Toggled(Toggled(v)) == v
  {
  }

  /** A message element of the chat page. */
  class MessageElement {
    var content: string
    var translated: bool
    var originalText: Option<string>
    var translatedText: Option<string>
    var button: Option<string>

    constructor (v: ElementView)
      ensures View() == v
    {
      content := v.content;
      translated := v.translated;
      originalText := v.originalText;
      translatedText := v.translatedText;
      button := v.button;
    }

    function View(): ElementView
      reads this
    {
      ElementView(content, translated, originalText, translatedText, button)
    }

    /** `toggleOriginalText`: switches only when the text to switch to is present. */
    method ToggleOriginalText()
      modifies this
      ensures View() == Toggled(old(View()))
    {
      if translated {
        if originalText.Some? && originalText.value != "" {
          content := originalText.value;
          translated := false;
          if button.Some? {
            button := Some(TranslatedLabel);
          }
        }
      } else {
        if translatedText.Some? && translatedText.value != "" {
          content := translatedText.value;
          translated := true;
          if button.Some? {
            button := Some(OriginalLabel);
          }
        }
      }
    }
  }
}
