# scinet ingestion core, modelled in Dafny

This project models two pieces of the scinet / Crowd Scholar article
ingestion service and proves properties of them.

- The name normaliser `dotify` (module `Names`) puts a dot after every
  capital initial of an author name and normalises the spacing, turning
  "L Ron Hubbard" into "L. Ron Hubbard". The project also models the DOI
  pattern used to find article identifiers (module `Doi`). Both are written
  by hand over strings: no general regular-expression engine.
- The request handlers (module `Views`):
  - `ping_endpoint` tells a client whether an article hash is already stored.
  - `raw_endpoint` accepts a raw JSON submission, stores it under a fresh
    uid and hands it to the submission controller.
  - The 404 and 405 error handlers.
  
  The raw endpoint is a method on a class `Api`. The class holds the raw
  payload files, the Mongo database, the id generator's counter and a ghost
  trace of the side effects in the order they happen.

`Chars` holds the character classes shared by the modules:
- whitespace: space, tab, line feed, carriage return, form feed and
  vertical tab;
- ASCII capitals and digits;
- word characters, for the DOI pattern's word boundaries.

Main results:
- `dotify`'s output is in whitespace normal form and has no capital left
  undotted.
- With whitespace removed, `dotify`'s output is the input with one '.'
  after each initial (`Names.Marked`).
- The strings `dotify` leaves alone are exactly the normal ones, so it is
  idempotent.
- Rewrite laws which, together with the fixed-point law, determine
  `dotify`'s output for every input:
  - whitespace at either end is dropped;
  - a run of whitespace between two words becomes one space;
  - a capital followed by a capital splits the word after its dot;
  - a capital that ends a word, after a character that is neither
    whitespace nor a capital, is dotted in place.
- The documented examples hold.
- The DOI scanner accepts exactly the strings of the declarative DOI form.
- `ping_endpoint` answers 201 exactly when some raw record matches the
  Mongo query, and 204 otherwise.
- `raw_endpoint` rejects with 400 without even decoding the body, or with
  405 after a failed decode and with no other effect. Otherwise it decodes
  the body, issues an id, writes a new file and calls the controller, in
  that order, and returns the controller's response as is.

Three behaviours of the code are worth noting:

- **Initials.** Every capital that is followed by whitespace, by another
  capital or by the end of the name is dotted. So a word in capitals is
  dotted letter by letter: "DOE" becomes "D. O. E."
  (`Names.DotifyCapitalWord`). The last initial keeps its dot but loses
  the space after it.
- **Ping without a hash.** The hash is read with
  `request.form.get('hash')`. That is `None` when the request has no form
  field `hash`, and Mongo's `{'hash': None}` matches every raw record
  without a hash. Such a ping answers 201 as soon as one such record
  exists (`Views.PingWithoutHash`).
- **Ids.** The id generator is modelled as a counter. The model relies on
  its values: each accepted submission takes the current counter value as
  its uid and advances the counter by one, and the invariant `Valid()`
  says that no id still to be issued names a stored file.

## Model

| member | source | states |
|---|---|---|
| Names.AddDots | app/util/regex.py:38-42 | Step 1: a non-empty input gives a non-empty output with the same first character, no shorter than the input |
| Names.TrimLeft | app/util/regex.py:46 | the result is no longer than the input and does not start with whitespace |
| Names.TrimRight | app/util/regex.py:46 | the result is a prefix of the input that does not end with whitespace |
| Names.CollapseSpaces | app/util/regex.py:45 | Step 2 keeps a leading non-whitespace character and turns leading whitespace into one ' ' |
| Names.Strip | app/util/regex.py:46 | `strip` leaves no whitespace at either end, and changes a string exactly when it has whitespace at an end |
| Names.Dotify | app/util/regex.py:19-49 | the output is in whitespace normal form (only ' ', never two adjacent, none at the ends) and has no capital followed by whitespace, a capital or the end; with whitespace dropped it equals `Marked(name)`, the input's non-whitespace characters in order with one '.' after each initial |
| Names.DotifyFixedPoint | app/util/regex.py:32-33 | `dotify(s) == s` exactly when s is in whitespace normal form with no bare capital |
| Names.DotifyIdempotent | app/util/regex.py:38-46 | `dotify(dotify(s)) == dotify(s)` for every s |
| Names.DotifySplit | app/util/regex.py:38-46 | for every non-blank a, non-empty whitespace run w and b starting with a non-whitespace character, `dotify(a + w + b) == dotify(a) + " " + dotify(b)`: the run between two words survives as exactly one space, and each side is dotified on its own |
| Chars.IsSpace | app/util/regex.py:45-46 | defines the whitespace of `\s` and of `str.strip()`: space, tab, line feed, carriage return, form feed, vertical tab |
| Names.IsInitialAt | app/util/regex.py:39 | defines an initial: an ASCII capital followed by whitespace, by another capital, or by the end of the string |
| Names.DotifyLeadingSpaces | app/util/regex.py:45-46 | leading whitespace of any kind and length does not change the output |
| Names.DotifyTrailingSpaces | app/util/regex.py:45-46 | trailing whitespace of any kind and length does not change the output |
| Names.DotifyFinalCapital | app/util/regex.py:38-46 | a capital ending a word, after a character that is neither whitespace nor a capital, becomes "C." in place: `dotify(p + c) == dotify(p) + "C."`, with no space entering the word |
| Names.DotifyCapitalPair | app/util/regex.py:38-46 | a capital followed by another capital, anywhere, splits the word there: `dotify(p + c + b) == dotify(p + c) + " " + dotify(b)` |
| Names.DotifyLeadingSpace | app/util/regex.py:46 | `dotify(" Ron") == "Ron"` |
| Names.DotifyInnerCapital | app/util/regex.py:38-42 | `dotify("McD") == "McD."` |
| Names.DotifyInitialBeforeSpace | app/util/regex.py:38-46 | a leading capital followed by any non-empty run of whitespace and then a word becomes "C. " in front of the dotified rest: the dot is followed by one space |
| Names.DotifyInitialBeforeCapital | app/util/regex.py:39 | the lookahead consumes nothing: a capital directly before another capital becomes "C. " in front of the dotified rest |
| Names.DotifyLastInitial | app/util/regex.py:39 | a capital alone gives "C." (the end anchor matches; the space added after the dot is stripped) |
| Names.DotifyInitialBeforeNormal | app/util/regex.py:38-46 | a leading initial before an already normal name only gains its dot |
| Names.DotifyHubbard | app/util/regex.py:28-29 | `dotify("L Ron Hubbard") == "L. Ron Hubbard"` |
| Names.DotifyWells | app/util/regex.py:30-31 | `dotify("H G Wells") == "H. G. Wells"` |
| Names.DotifyWellsDotted | app/util/regex.py:32-33 | `dotify("H. G. Wells") == "H. G. Wells"` |
| Names.DotifyConsecutiveCapitals | app/util/regex.py:39 | `dotify("HG") == "H. G."` |
| Names.DotifyCapitalWord | app/util/regex.py:38-46 | `dotify("DOE") == "D. O. E."`: a word in capitals is dotted letter by letter |
| Names.DropSpaces | app/util/regex.py:45-46 | removing whitespace leaves no whitespace and is no longer than the input |
| Names.AddDotsFixedPoint | app/util/regex.py:38-42 | step 1 changes a string exactly when it contains an initial |
| Names.AddDotsNoBareCapital | app/util/regex.py:38-42 | step 1's output has no initial left |
| Names.DropSpacesAddDots | app/util/regex.py:38-42 | step 1's output without whitespace is `Marked` of its input |
| Names.CollapseSingleSpaced | app/util/regex.py:45 | step 2's output is single-spaced |
| Names.CollapseFixedPoint | app/util/regex.py:45 | step 2 leaves a single-spaced string alone |
| Names.DropSpacesCollapse | app/util/regex.py:45 | step 2 changes only whitespace |
| Names.CollapseNoBareCapital | app/util/regex.py:45 | step 2 creates no initial |
| Names.StripDropSpaces | app/util/regex.py:46 | step 3 removes only whitespace |
| Names.StripNoBareCapital | app/util/regex.py:46 | step 3 creates no initial |
| Names.StripSingleSpaced | app/util/regex.py:46 | step 3 keeps single spacing |
| Names.AddDotsAppend | app/util/regex.py:38-42 | step 1 acts piecewise on a concatenation whose cut does not separate a capital from what follows it |
| Names.CollapseAppend | app/util/regex.py:45 | step 2 acts piecewise on a concatenation whose cut is not inside a whitespace run |
| Names.TrimRightAppend | app/util/regex.py:46 | trailing whitespace is stripped from the right-hand piece alone when that piece keeps some character |
| Names.AddDotsAroundSpaces | app/util/regex.py:38-42 | step 1 leaves a whitespace run alone and acts on the pieces on either side of it independently |
| Names.CollapseSplit | app/util/regex.py:45 | step 2 turns a whitespace run, together with the whitespace ending the piece before it, into one ' ' |
| Names.NormaliseSplit | app/util/regex.py:45-46 | steps 2 and 3 together turn a whitespace run between two words into one ' ' between the normalised pieces |
| Names.NormaliseLeadingBlank | app/util/regex.py:45-46 | steps 2 and 3 ignore leading whitespace |
| Names.NormaliseTrailingBlank | app/util/regex.py:45-46 | steps 2 and 3 ignore trailing whitespace |
| Names.NormaliseAfterInitial | app/util/regex.py:45-46 | steps 2 and 3 leave a "C. " prefix in front of a word untouched |
| Doi.Matches | app/util/regex.py:13 | defines whole-string acceptance by the captured group: "10.", a run of at least four digits, '.'-digit groups, '/', and a non-empty suffix, scanned left to right |
| Doi.DoiAt | app/util/regex.py:13 | defines a match of the whole pattern at text[i..j]: the captured group with a word boundary at both ends |
| Doi.DigitRun | app/util/regex.py:13 | the length of the maximal run of digits at a position: every character in it is a digit and the next is not |
| Doi.MatchesIffDoiForm | app/util/regex.py:13 | the scanner accepts s exactly when s is "10.", a registrant (at least four digits, then '.'-separated digit groups), '/', and a non-empty suffix with no whitespace and none of `"`, `&`, `'`, `<`, `>` |
| Doi.MatchesShape | app/util/regex.py:13 | an accepted string starts with "10.", has a '/' after a well-formed registrant, and has a non-empty, clean suffix after it |
| Doi.GroupsSound | app/util/regex.py:13 | from the end of a registrant, the group scanner only accepts '.'-digit groups followed by '/' and a clean suffix |
| Doi.DoiFormMatches | app/util/regex.py:13 | every string of the declarative form is accepted |
| Doi.GroupsComplete | app/util/regex.py:13 | from every '.' or the '/' of a well-formed registrant, the group scanner accepts |
| Doi.RegistrantExtend | app/util/regex.py:13 | a registrant followed by '.' and digits is a registrant |
| Doi.SuffixFromForm | app/util/regex.py:13 | the suffix scanner accepts exactly when every remaining character is a suffix character |
| Doi.DoiAtStart | app/util/regex.py:13 | with the word boundaries, a match begins the text or follows a non-word character |
| Doi.MatchesHandbook | app/util/regex.py:13 | "10.1000/182" is accepted |
| Doi.MatchesSubgroups | app/util/regex.py:13 | "10.12345.6/a/b" is accepted: registrant sub-groups, and '/' inside the suffix |
| Doi.RejectsShortRegistrant | app/util/regex.py:13 | "10.123/x" is rejected: fewer than four registrant digits |
| Doi.RejectsSpaceInSuffix | app/util/regex.py:13 | "10.1000/a b" is rejected: whitespace in the suffix |
| Views.HashMatches | scinet/views.py:52-53 | defines Mongo's `{'hash': target}` on one record: equal or array-holding for a given hash; missing or null for the `None` target |
| Views.CountMatching | scinet/views.py:53 | the query's count is positive exactly when some record matches `{'hash': target}` |
| Views.Ping | scinet/views.py:44-56 | the status is 201 exactly when some raw record matches the requested hash, and 204 otherwise; empty body; nothing is written |
| Views.PingWithoutHash | scinet/views.py:52-53 | with no `hash` in the form, any raw record without a hash makes the ping answer 201 |
| Views.PingNonexistentHash | test/test_views.py:50-54 | against an empty raw collection the ping answers 204 |
| Views.PingExistingHash | test/test_views.py:57-64 | after inserting `{'hash': 'testhash'}`, a ping for "testhash" answers 201 |
| Views.Digit | scinet/views.py:79 | a decimal digit character whose value is its argument |
| Views.NatToString | scinet/views.py:79 | `str(uid)` is non-empty and made of decimal digits only |
| Views.DecimalRoundTrip | scinet/views.py:79 | reading `str(uid)` back as a decimal number gives uid |
| Views.RawPath | scinet/views.py:76-80 | every storage path lies under `raw_payloads/` |
| Views.RawPathInjective | scinet/views.py:76-80 | two uids have the same storage path exactly when they are equal |
| Views.Api.GetId | scinet/views.py:74 | hands out the next id, whose path is not yet a file, and changes nothing else |
| Views.Api.Decode | scinet/views.py:69-72 | the result is the decoder's answer for the body, `None` when it is not JSON; files, database and id counter are untouched, and the decode is recorded in the trace |
| Views.Api.StoreJsonToFile | scinet/views.py:81 | the given path now holds the payload; every other file, the database and the id counter are as before; `Valid()` is kept when the path is not that of an id still to be issued |
| Views.Api.Submit | scinet/views.py:83-85 | the response and the new database are what the controller returns for this submission, uid and database; files and id counter are untouched, so `Valid()` holds after exactly when it held before |
| Views.Api.RawEndpoint | scinet/views.py:58-89 | a content type other than exactly "application/json" gives 400 with no change of state at all, not even a decode, and no JSON error body; an undecodable body gives 405, again with no error body (it is not the 405 handler's answer), with files, database and id counter untouched and only the decode recorded; otherwise the uid issued was not yet a file, exactly one file is added at `raw_payloads/<uid>` holding the decoded submission, and the controller's result for that submission and uid is returned and its database kept; the effects are body decoded, id issued, file written, controller called, in that order |
| Views.AcceptTwo | scinet/views.py:73-81 | two accepted submissions in a row are both stored, each in its own file |
| Views.NotFound | scinet/views.py:92-94 | status 404 and JSON error "Page Not Found" |
| Views.MethodNotAllowed | scinet/views.py:96-98 | status 405 and JSON error "Method Not Allowed" |
| Views.ErrorBodyRoundTrip | scinet/views.py:92-98 | the error read back from a `{'error': message}` body is that message |

## Left out

- The Mongo connection (`connect_client`, lazy `get_db` caching on the application context, `close_db`) is framework lifecycle and I/O. The database is just a field of `Api`.
- The `index` page, Flask routing and the parsing of headers, form and body are left out. The endpoints take the content type, the body text and the form's `hash` as plain inputs.
- A request with no content-type header is left out. There `request.headers['content-type']` raises, and the framework answers with its own error.
- json.loads is a function parameter, not a JSON parser. Its failure is `None`. Floating-point numbers are not part of the `Json` value type.
- `get_id` is not part of this model. It is a counter that never hands out an id whose path is already a file.
- `store_json_to_file` is not part of this model. It is a map update at the path. The application directory that precedes `raw_payloads/` is the same for every path and is dropped.
- `JSONController` is not part of this model. It is an arbitrary function of the submission, the uid and the database. So is the group `submissions` counter that the controller increments.
- Exceptions raised by the store or by the controller, which the framework turns into a 500, are not modelled.
- Whether a hash becomes visible to ping after a `/raw` submission is not modelled. That depends on what the controller writes.
- Mongo query semantics beyond one field are left out. `HashMatches` covers equality, array membership, and a missing or null field for the `None` target.
- Regular-expression search is left out: the leftmost match and the backtracking of the DOI pattern's greedy suffix against the trailing word boundary. `Doi.Matches` recognises a whole candidate string. `Doi.DoiAt` adds both word boundaries at given positions.
- Unicode whitespace and case are left out. Capitals are ASCII A-Z, and whitespace is the six ASCII whitespace characters, as for byte strings in Python 2.
- The doctest runner and the test fixtures are left out. The examples appear as lemmas about the model.
- Concurrent requests are left out. Each endpoint runs to completion on its own.
