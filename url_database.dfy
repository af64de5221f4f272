/**
 * The URL table of express_server.js: the object `urlDatabase` maps each
 * short code to its long URL, and the route handlers update it in place.
 * Each handler becomes one method of `UrlDatabase`; only its effect on the
 * table is modelled, not the page it renders or the redirect it sends.
 */
module UrlStore {

  import opened Wrappers
  import ShortCode

  /** The table when the server starts (express_server.js:19-22). */
  const InitialUrls: map<string, string> :=
    map["b2xVn2" := "http://www.lighthouselabs.ca", "9sm5xK" := "http://www.google.com"]

  /** The property read `urlDatabase[code]`: the stored URL, or None where JavaScript gives `undefined`. */
  function Get(urls: map<string, string>, code: string): Option<string>
  {
    if code in urls then Some(urls[code]) else None
  }

  /**
   * The one key that a property assignment does not store: assigning a
   * string to `obj["__proto__"]` goes to the prototype setter, which ignores
   * anything that is not an object or null.
   */
  const ProtoKey: string := "__proto__"

  /** A generated code never is `__proto__`, since `_` is not in the alphabet. */
  lemma GeneratedCodeIsNotProtoKey(draws: seq<nat>)
    ensures ShortCode.Code(draws) != ProtoKey
  {
    ShortCode.CodeOverAlphabet(draws);
    ShortCode.CharactersAreAlphanumeric('_');
    assert ProtoKey[0] == '_';
  }

  /** The two seed codes are codes the generator can produce. */
  lemma SeedCodesAreGenerable()
    ensures forall code :: code in InitialUrls ==>
              exists draws :: |draws| == ShortCode.CodeLength && ShortCode.InRange(draws) && ShortCode.Code(draws) == code
  {
    forall code | code in InitialUrls
      ensures exists draws :: |draws| == ShortCode.CodeLength && ShortCode.InRange(draws) && ShortCode.Code(draws) == code
    {
      forall j | 0 <= j < |code|
        ensures code[j] in ShortCode.Characters
      {
        ShortCode.CharactersAreAlphanumeric(code[j]);
      }
      ShortCode.CodeOfDraws(code);
    }
  }

  class UrlDatabase {

    /** Short code to long URL. */
    var urls: map<string, string>

    /** The table as the server starts with it: exactly the two seed entries. */
    constructor ()
      ensures urls == InitialUrls
      ensures urls.Keys == {"b2xVn2", "9sm5xK"}
      ensures Get(urls, "b2xVn2") == Some("http://www.lighthouselabs.ca")
      ensures Get(urls, "9sm5xK") == Some("http://www.google.com")
    {
      urls := InitialUrls;
    }

    /**
     * POST /urls: generate a code from the random indices `draws` and store
     * `longURL` under it. There is no collision check: a code that is already
     * in the table has its URL replaced.
     */
    method Add(draws: seq<nat>, longURL: string) returns (shortURL: string)
      requires |draws| == ShortCode.CodeLength
      modifies this
      ensures shortURL == ShortCode.Code(draws) && shortURL != ProtoKey
      ensures ShortCode.InRange(draws) ==> |shortURL| == ShortCode.CodeLength && ShortCode.OverAlphabet(shortURL)
      ensures urls == old(urls)[shortURL := longURL]
      ensures Get(urls, shortURL) == Some(longURL)
      ensures forall code :: code != shortURL ==> Get(urls, code) == Get(old(urls), code)
      ensures urls.Keys == old(urls).Keys + {shortURL}
    {
      shortURL := ShortCode.GenerateRandomString(draws);
      GeneratedCodeIsNotProtoKey(draws);
      urls := urls[shortURL := longURL];
    }

    /**
     * POST /urls/:shortURL/delete: remove the entry for `shortURL`. Removing
     * a code that is not in the table changes nothing.
     */
    method Delete(shortURL: string)
      modifies this
      ensures urls == old(urls) - {shortURL}
      ensures Get(urls, shortURL) == None
      ensures forall code :: code != shortURL ==> Get(urls, code) == Get(old(urls), code)
      ensures shortURL !in old(urls) ==> urls == old(urls)
      ensures shortURL in old(urls) ==> |urls| == |old(urls)| - 1
    {
      urls := urls - {shortURL};
    }

    /**
     * POST /urls/:shortURL: store `newURL` under `shortURL`. There is no
     * existence check, so an unknown code is added. For the code
     * `__proto__` the assignment stores nothing and the table is unchanged.
     */
    method Edit(shortURL: string, newURL: string)
      modifies this
      ensures urls == if shortURL == ProtoKey then old(urls) else old(urls)[shortURL := newURL]
      ensures shortURL != ProtoKey ==> Get(urls, shortURL) == Some(newURL)
      ensures forall code :: code != shortURL ==> Get(urls, code) == Get(old(urls), code)
      ensures urls.Keys == if shortURL == ProtoKey then old(urls).Keys else old(urls).Keys + {shortURL}
    {
      if shortURL != ProtoKey {
        urls := urls[shortURL := newURL];
      }
    }

    /**
     * GET /u/:shortURL (and the read on the show page): the URL stored under
     * `shortURL`, or None for an unknown code. Nothing is changed.
     */
    method Lookup(shortURL: string) returns (longURL: Option<string>)
      ensures longURL.Some? <==> shortURL in urls
      ensures longURL.Some? ==> longURL.value == urls[shortURL]
      ensures longURL == Get(urls, shortURL)
    {
      if shortURL in urls {
        longURL := Some(urls[shortURL]);
      } else {
        longURL := None;
      }
    }
  }

  /** Adding a URL and then following its short code redirects to that URL. */
  method AddThenLookup(db: UrlDatabase, draws: seq<nat>, longURL: string) returns (shortURL: string, found: Option<string>)
    requires |draws| == ShortCode.CodeLength
    modifies db
    ensures found == Some(longURL)
    ensures db.urls == old(db.urls)[shortURL := longURL]
  {
    shortURL := db.Add(draws, longURL);
    found := db.Lookup(shortURL);
  }

  /** Deleting a code and then following it finds nothing. */
  method DeleteThenLookup(db: UrlDatabase, shortURL: string) returns (found: Option<string>)
    modifies db
    ensures found == None
    ensures db.urls == old(db.urls) - {shortURL}
  {
    db.Delete(shortURL);
    found := db.Lookup(shortURL);
  }

  /**
   * Editing a code and then following it redirects to the new URL; for
   * `__proto__` the lookup finds what was there before.
   */
  method EditThenLookup(db: UrlDatabase, shortURL: string, newURL: string) returns (found: Option<string>)
    modifies db
    ensures shortURL != ProtoKey ==> found == Some(newURL)
    ensures shortURL == ProtoKey ==> found == Get(old(db.urls), ProtoKey)
    ensures db.urls == if shortURL == ProtoKey then old(db.urls) else old(db.urls)[shortURL := newURL]
  {
    db.Edit(shortURL, newURL);
    found := db.Lookup(shortURL);
  }
}
