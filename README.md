# tinyapp URL shortener — Dafny model of its core

tinyapp is a small Express web application. It turns a long URL into a
six-character short code, keeps the code-to-URL mapping in an in-memory
object, and redirects visitors from `/u/<code>` to the stored URL. Almost all
of the code is routing and template rendering. This project models the parts
that hold logic:

- `ShortCode` (short_code.dfy) models `generateRandomString`, which builds a
  6-character code by appending, six times, the character of a 62-character
  alphanumeric alphabet at a random index. The random source is a parameter:
  the caller passes the six indices it drew. `String.prototype.charAt`
  semantics are kept: an index past the end appends the empty string.
  The module proves these facts:
  - every generated character is in the alphabet;
  - the code is exactly six characters long if and only if every index is in
    `[0, 62)`;
  - generation is a bijection between in-range index sequences and
    6-character alphanumeric strings. Its inverse is `Draws`.
- `UrlStore` (url_database.dfy) models `urlDatabase` as the class
  `UrlDatabase`, which holds a `map<string, string>`. It has one method per
  route handler that touches the table: add, delete, edit and lookup. Each
  method states the whole new table and says that every other code keeps its
  entry.
- `Users` (users.dfy) models `getUserByEmail`. A user table is a value: its
  keys in `for...in` enumeration order, plus the key-to-user map. The method is
  a `while` loop with an early return. It is proved equal to a recursive
  reference definition, `FirstByEmail`, and the lemmas beside it state what
  that definition promises.
- `Wrappers` (wrappers.dfy) holds `Option`. `None` stands for JavaScript's
  `undefined`.

At this revision the table maps codes straight to URL strings. There are
no link owners and no per-owner listing, there is no registration check, and
an unknown code reads as `undefined`.

## Model

| member | source | states |
|---|---|---|
| `ShortCode.GenerateRandomString` | express_server.js:9-16 | The result is the code built from the six drawn indices. Every character is in the alphabet. The result has exactly 6 characters iff every index is below 62, and then character i is the alphabet's character at index i. |
| `ShortCode.CodeSize` | express_server.js:12-14 | A generated code has at most one character per index. Its length equals the number of indices iff every index is below 62. |
| `ShortCode.CodeAt` | express_server.js:12-13 | With in-range indices, character j of the code is the alphabet's character at index j. |
| `ShortCode.CodeOverAlphabet` | express_server.js:11-13 | Whatever the indices, every character of a generated code belongs to the alphabet. |
| `ShortCode.CharactersAreAlphanumeric` | express_server.js:11 | A character is in the source's alphabet literal iff it is an ASCII upper-case letter, lower-case letter or digit. |
| `ShortCode.IndexOfCharacter` | express_server.js:11 | No character occurs twice in the alphabet: IndexOf recovers the position of every alphabet character. |
| `ShortCode.CharacterAtIndexOf` | express_server.js:11 | Every alphabet character sits at the position IndexOf computes for it. |
| `ShortCode.CodeOfDraws` | express_server.js:12-14 | For any string over the alphabet, generating from its recovered indices gives the same string back. |
| `ShortCode.DrawsOfCode` | express_server.js:12-14 | Reading the indices back from a code made from in-range indices gives exactly the indices drawn. |
| `ShortCode.GenerationIsBijective` | express_server.js:11-14 | Different in-range index sequences give different codes, and every 6-character alphanumeric string is produced by some in-range draw. |
| `UrlStore.UrlDatabase.constructor` | express_server.js:19-22 | The initial table holds exactly the two entries `b2xVn2` and `9sm5xK`, with their URLs. |
| `UrlStore.SeedCodesAreGenerable` | express_server.js:19-22 | Both seed codes are codes the generator can produce from in-range indices. |
| `UrlStore.GeneratedCodeIsNotProtoKey` | express_server.js:11-13 | No generated code is `__proto__`, because `_` is not in the alphabet, so the assignment at line 32 always stores its value. |
| `UrlStore.UrlDatabase.Add` | express_server.js:30-35 | The new code is the generated one, and it is never `__proto__`. Afterwards it maps to the submitted longURL, even if it was already present, because there is no collision check. Every other code keeps its entry. The key set gains exactly that code. |
| `UrlStore.UrlDatabase.Delete` | express_server.js:59-62 | Afterwards the code is absent and every other code keeps its entry. Deleting an absent code leaves the table unchanged. Deleting a present code shrinks the table by one. |
| `UrlStore.UrlDatabase.Edit` | express_server.js:66-69 | Afterwards the code maps to newURL, and an absent code is added, because there is no existence check. For the code `__proto__` the assignment stores nothing, so the table is unchanged. Every other code keeps its entry. |
| `UrlStore.UrlDatabase.Lookup` | express_server.js:72-75 | Returns a value iff the code is in the table, and that value is exactly the stored URL. An unknown code gives None. The table is not changed. |
| `UrlStore.AddThenLookup` | express_server.js:30-35 | Adding a URL and then looking up its new code finds that URL. |
| `UrlStore.DeleteThenLookup` | express_server.js:59-62 | Deleting a code and then looking it up finds nothing. |
| `UrlStore.EditThenLookup` | express_server.js:66-69 | Editing a code other than `__proto__` and then looking it up finds the new URL. For `__proto__` the lookup finds what was there before. |
| `Users.GetUserByEmail` | helpers.js:2-8 | Equals the reference scan. A returned user has the queried email and is the user at some position of the key order, with no earlier key's user having that email. Nothing is returned iff no user in the table has that email. The table, a value, is unchanged. |
| `Users.FirstByEmailIsFirst` | helpers.js:3-5 | The reference scan returns nothing iff no enumerated key has the email. Otherwise it returns the user at the first position whose email matches. |
| `Users.FirstByEmailSound` | helpers.js:2-8 | On a well-formed table, a returned user has the queried email and is one of the table's users. Nothing is returned iff no user has the email. |
| `Users.UniqueEmailFindsThatUser` | helpers.js:3-5 | When emails are unique across the table, looking up a user's email returns that user, whatever the enumeration order. |

## Left out

- Express setup, `body-parser`, `app.listen` and the rendering handlers are framework I/O with no table logic, so they are not modelled. This covers `/`, `/urls`, `/urls/new`, `/urls.json`, `/hello` and the page of `GET /urls/:shortURL`. That page reads the table the same way `Lookup` does.
- `res.render`, `res.redirect` and `console.log` are HTTP and logging side effects, so they are not modelled. Each handler is modelled only by its effect on the table. Redirecting to an unknown code passes `undefined` to `res.redirect`; the model stops at the `None` that `Lookup` returns.
- `Math.random()` and `Math.floor` are floating point and nondeterministic. They are replaced by the caller-supplied indices.
- ShortCode.GenerateRandomString: its contract says nothing about probability. Uniformity rests on the caller's indices; the bijection lemma shows that uniform indices would give uniform codes.
- UrlStore.UrlDatabase.Add: `longURL` is a string. A missing form field, which JavaScript would store as `undefined`, is not modelled.
- UrlStore.AddThenLookup: a missing `longURL` form field is not modelled. JavaScript would store `undefined`, and the lookup would then read `undefined` although the key is present.
- UrlStore.UrlDatabase.Edit: `newURL` is a string. A missing form field, which JavaScript would store as `undefined` under a present key, is not modelled.
- UrlStore.EditThenLookup: a missing `newURL` form field is not modelled, and neither is the `__proto__` read. For `__proto__`, JavaScript's lookup yields `Object.prototype`, an inherited property, where the model yields the table's own entry for `__proto__`, which no operation ever creates.
- UrlStore.UrlDatabase.Lookup: properties inherited from `Object.prototype` are not modelled, so `urlDatabase["toString"]` and `urlDatabase["__proto__"]` are treated as unknown codes.
- Users.GetUserByEmail: the key order is taken as given. JavaScript's rule that integer-like keys enumerate first, in ascending order, is not modelled.
- Users.GetUserByEmail: a user record without an `email` field is not modelled.
- Collision retry, link ownership, per-owner listing, registration, password hashing and sessions do not exist in this source, so they are not modelled.
