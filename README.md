# vertical-padding `/padStop`, modelled in Dafny

The service adds a vertical padding to a horizontal travel estimate: the time
needed at the destination building for elevators, stairs and security. Its one
handler, `POST /padStop`, takes `{address, horizontal_time_sec, is_peak}`.
It derives a cache key from the address and looks the key up in the
`buildings` table. On a miss it geocodes the address, asks Overpass for the
building at the first candidate, normalises that building's tags into
`{floor_count, is_office}` and inserts the row. It then computes the pad and
the total, appends a record to the `runs` log and answers.

This project models that handler and the pure pieces it is built from:

- `Utf8`, `Base64Url`, `AddressKey`: the key is
  `Buffer.from(address).toString("base64url")`. That is UTF-8 followed by the
  URL- and filename-safe alphabet of section 5 of RFC 4648, without padding.
  Both encoders come with decoders that undo them, so distinct addresses
  provably get distinct keys.
- `JsParseInt`: `parseInt(string)` as section 19.2.5 of ECMA-262 defines it.
  It skips leading white space, reads an optional sign and an optional
  `0x`/`0X` prefix, then the longest run of digits. NaN is `None`.
- `BuildingTags`: selecting the first element's tags, the floor count
  `parseInt(tags["building:levels"]) || 5`, and the test
  `/(office|commercial)/i` on `tags["building"] || ""`.
- `Padding`: `60 + 10 * floor_count + (office ? 30 : 0) + (peak ? 20 : 0)`
  and `horizontal + pad`.
- `PadStop`: the handler as a method of class `Api`, which holds
  `buildings: map<string, Row>` and `runs: seq<Run>`. The geocoder reply, the
  Overpass reply (a function of the coordinates), the outcome of each of the
  two SQLite INSERTs and the timestamp are parameters. The method's
  postcondition gives the whole new state and the response on every path:
  400, geocoder or Overpass failure, a failed INSERT, a hit and a miss.

Points of the code's behaviour that are easy to misread:

- A negative `building:levels` value is kept. Only NaN and 0 become 5.
- The cache insert is a plain `INSERT`, not insert-if-absent. In this
  sequential model it runs only after a confirmed miss.
- A negative `horizontal_time_sec` is not rejected.
- On a hit the response's `is_office` is the stored integer 1/0. On a miss it
  is a boolean (`OfficeFlag`). Every number computed from it is the same.
- A failed `runs` INSERT after a successful cache INSERT answers 500 and
  keeps the new cache row, because the two writes are not in one transaction.

## Model

| member | source | states |
|---|---|---|
| `Utf8.Encode` | api/src/index.ts:55 | the UTF-8 bytes `Buffer.from` produces, one to four bytes per character |
| `Utf8.DecodeEncode` | api/src/index.ts:55 | decoding the UTF-8 bytes of any string gives the string back |
| `Utf8.EncodeInjective` | api/src/index.ts:55 | two strings have the same UTF-8 bytes exactly when they are equal |
| `Base64Url.Encode` | api/src/index.ts:55 | the unpadded encoding has ⌈4n/3⌉ characters for n bytes, all from the URL-safe alphabet |
| `Base64Url.DecodeEncode` | api/src/index.ts:55 | decoding the base64url text of any byte string gives the bytes back |
| `Base64Url.EncodeInjective` | api/src/index.ts:55 | two byte strings have the same base64url text exactly when they are equal |
| `AddressKey.KeyFor` | api/src/index.ts:55 | the key uses only the URL-safe alphabet and is empty exactly when the address is |
| `AddressKey.AddressOfKeyFor` | api/src/index.ts:55 | every key decodes back to the address it was formed from |
| `AddressKey.KeyForInjective` | api/src/index.ts:24 | two addresses share an `addr_hash` exactly when they are the same address |
| `AddressKey.Example` | api/src/index.ts:55 | the key of "hi" is "aGk" |
| `JsParseInt.ParseInt` | api/src/index.ts:75 | `parseInt` with no radix: skip white space, read a sign, read `0x`/`0X` as radix 16, then the longest digit run; NaN when the run is empty |
| `JsParseInt.ParseIntIsNumber` | api/src/index.ts:75 | parseInt yields a number exactly when, after white space and a sign, a decimal digit follows, or `0x`/`0X` and a hexadecimal digit |
| `JsParseInt.NotANumber` | api/src/index.ts:75 | a value with no decimal digit after white space and a sign is NaN |
| `JsParseInt.ParseIntOfDigits` | api/src/index.ts:75 | white space, an optional `+` or `-`, any run of decimal digits (leading zeros allowed) and text that does not continue it read as the digits' value, negated after `-` |
| `JsParseInt.ParseIntSkipsWhiteSpace` | api/src/index.ts:75 | leading white space never changes what parseInt reads |
| `JsParseInt.ParseIntOfIntString` | api/src/index.ts:75 | parseInt reads back the numeral of any integer followed by text that does not continue it |
| `JsParseInt.ParseIntOfNumeral` | api/src/index.ts:75 | the same after any leading white space |
| `BuildingTags.FloorCount` | api/src/index.ts:75 | the floor count is never 0 |
| `BuildingTags.FloorCountOfDigits` | api/src/index.ts:75 | a levels tag of white space, an optional sign, decimal digits and non-continuing text gives ± the digits' value, negative values kept; a value of 0 gives 5 |
| `BuildingTags.FloorCountNonNumeric` | api/src/index.ts:75 | a levels tag with no decimal digit after white space and a sign gives 5 |
| `BuildingTags.FloorCountMissing` | api/src/index.ts:75 | with no levels tag the floor count is 5 |
| `BuildingTags.FloorCountExamples` | api/src/index.ts:75 | "4 floors" gives 4 and "3.5" gives 3 |
| `BuildingTags.FloorCountSignedExamples` | api/src/index.ts:75 | "-2" gives -2 and " +03" gives 3 |
| `BuildingTags.FloorCountZeroExample` | api/src/index.ts:75 | "0" gives 5 |
| `BuildingTags.FloorCountWordExample` | api/src/index.ts:75 | "many" gives 5 |
| `BuildingTags.FirstTags` | api/src/index.ts:73 | the first element's tags, or an empty map when there is no first element or it has no tags; any non-empty result comes from the first element |
| `BuildingTags.FromElements` | api/src/index.ts:73-77 | the metadata of a reply is the normalised tags of its first element; its floor count is never 0 |
| `BuildingTags.OfficePattern` | api/src/index.ts:76 | the case-insensitive regular-expression test for "office" or "commercial", as an ASCII lower-case substring search for either word |
| `BuildingTags.IsOffice` | api/src/index.ts:76 | the pattern tested on `tags["building"]`, or on "" when the tag is absent |
| `BuildingTags.Normalise` | api/src/index.ts:74-77 | the normalised metadata never has 0 floors |
| `BuildingTags.ContainsIff` | api/src/index.ts:76 | the substring search succeeds exactly when the word occurs at some position |
| `BuildingTags.OfficePatternIff` | api/src/index.ts:76 | the office test holds exactly when "office" or "commercial" occurs somewhere, case ignored |
| `BuildingTags.OfficePatternAnywhere` | api/src/index.ts:76 | a matching value still matches with any text before and after it |
| `BuildingTags.NotOfficeWithoutTag` | api/src/index.ts:76 | a missing `building` tag means not an office |
| `BuildingTags.OfficeExamples` | api/src/index.ts:76 | "Commercial" and "OFFICE" match, "retail" does not |
| `BuildingTags.NoElements` | api/src/index.ts:73-77 | a reply with no elements gives 5 floors and not an office |
| `BuildingTags.OnlyFirstElement` | api/src/index.ts:73 | elements after the first never change the metadata |
| `Padding.VerticalPad` | api/src/index.ts:84-88 | the pad: 60, plus 10 per floor, plus 30 for an office, plus 20 at peak |
| `Padding.TotalSec` | api/src/index.ts:89 | the total: horizontal time plus pad |
| `Padding.PerFloorStep` | api/src/index.ts:84-88 | each floor adds exactly 10 seconds |
| `Padding.Bonuses` | api/src/index.ts:84-88 | an office adds exactly 30 seconds and the peak hour exactly 20 |
| `Padding.PadRange` | api/src/index.ts:84-88 | the pad is the floor-only pad plus 0 to 50 seconds of bonuses |
| `Padding.PadPositive` | api/src/index.ts:84-89 | with at least one floor the pad is at least 70 and the total exceeds the horizontal time |
| `Padding.NegativeFloors` | api/src/index.ts:84-89 | a kept level count of -10 gives a pad of -40, a total below the horizontal time |
| `Padding.Examples` | api/src/index.ts:44-47 | 5 floors, no office, off-peak, 100 s give 110 and 210; 10 floors, office, peak, 50 s give 210 and 260 |
| `PadStop.HasAddress` | api/src/index.ts:53 | `if (!address)` passes: the address is present and not empty |
| `PadStop.HorizontalSec` | api/src/index.ts:52 | `horizontal_time_sec`, 0 when absent |
| `PadStop.IsPeak` | api/src/index.ts:52 | `is_peak`, false when absent; only `true` counts at the peak test of line 88 |
| `PadStop.MetaOfBuilding` | api/src/index.ts:74-77 | the `meta` a miss builds: the floor count and the office test as a boolean |
| `PadStop.MetaOfRow` | api/src/index.ts:56-58 | the `meta` a hit reads back: the stored floor count and the stored integer office value |
| `PadStop.Pad` | api/src/index.ts:84-88 | the pad computed on `meta` and the request's peak flag, the office bonus applying when `is_office` is truthy |
| `PadStop.Resolve` | api/src/index.ts:62-77 | resolution succeeds exactly when the geocoder has a candidate and Overpass answers with elements for the first one; it then yields the first element's normalised tags; a rejected geocoder or Overpass call gives its own message, no candidate and a reply without `elements` give the TypeError texts |
| `PadStop.RowOf` | api/src/index.ts:78-80 | the row inserted on a miss: the floor count and the office flag as 1 or 0 |
| `PadStop.BodyOf` | api/src/index.ts:84-89 | the response body: the metadata with the pad and the total computed from it and from the request |
| `PadStop.RunOf` | api/src/index.ts:92-105 | the logged run: address, horizontal time, floor count, office bit, pad, total and timestamp |
| `PadStop.OfficeBit` | api/src/index.ts:80 | the stored office value is 1 when the flag is truthy and 0 otherwise |
| `PadStop.ResolveNeedsCandidate` | api/src/index.ts:62-63 | without a geocoder candidate resolution fails and never depends on Overpass |
| `PadStop.RunMatchesResponse` | api/src/index.ts:92-107 | the logged run has the request's address and horizontal time (0 when absent), and the response's floors, office bit, pad and total; total = horizontal + pad |
| `PadStop.HitAgreesWithMiss` | api/src/index.ts:56-61 | a row read back from the cache gives the same floors, pad, total and run as the miss that stored it; only `is_office`'s type differs |
| `PadStop.EmptyReplyExample` | api/src/index.ts:73-89 | a miss with an empty Overpass reply, 100 s, off-peak answers 5 floors, pad 110, total 210 |
| `PadStop.CachedKeyOwner` | api/src/index.ts:24 | in a well-formed cache, a row's key is the key of exactly one address, the one it decodes to |
| `PadStop.CacheInsert` | api/src/index.ts:78-80 | inserting a resolved building's row at an address's key keeps every cached key decodable to its address, with a non-zero floor count and a 0/1 office bit |
| `PadStop.Api.constructor` | api/src/index.ts:22-38 | a new database file starts with both tables empty |
| `PadStop.Api.PadStop` | api/src/index.ts:50-111 | no address gives 400 with nothing written; a failure of geocoder, Overpass or the cache INSERT gives 500 with nothing written; a hit keeps `buildings` as it is; a miss adds exactly the row at the key; each success appends exactly one run and answers body and run from the same metadata; a failed run INSERT gives 500 and appends nothing; every answer has a non-zero floor count and its office flag's bit is the logged one, and on a hit the flag is exactly the stored and logged 1/0 |
| `PadStop.RepeatRequest` | api/src/index.ts:56-61 | after one success for an address, a second request for it is a hit whatever the geocoder and Overpass would answer, and the cache holds exactly the keys it held plus the address's; when the second run INSERT succeeds it answers the same floors, pad and total and logs the same run apart from its timestamp, and when it fails it answers 500 and logs nothing |

## Left out

- HTTP plumbing (Express routing, CORS, JSON body parsing, `app.listen`, `res.json`): only the handler's decisions and its 400/500/success outcome are modelled.
- SQLite setup, the WAL pragma and the SQL text: the tables are a map and a sequence. The `runs` AUTOINCREMENT id is the record's position in the sequence.
- The geocoder and Overpass HTTP clients: their settled replies are parameters. The Overpass query text, with its 10-metre radius and the interpolated floating-point coordinates, is not modelled; the reply is a function of the coordinates instead.
- `Date.now()`: the timestamp is a parameter.
- Concurrent requests: two simultaneous misses for one address would make the second plain INSERT fail on the primary key. The model is sequential.
- JavaScript's dynamic typing: a number or plain-object address makes `Buffer.from` throw (a 500), and an array or array-like address is read as bytes (`[104, 105]` gets the key of "hi" and goes on to the lookup); neither is modelled. Nor are a string or `null` horizontal time and a non-boolean `is_peak`. The horizontal time is an optional integer and `is_peak` an optional boolean, where only `true` counts.
- Floating point: JavaScript numbers are doubles. Numerals and sums beyond 2^53 are exact here but rounded at run time, and a numeral of more than about 309 digits makes `parseInt` return `Infinity`, which is truthy and kept as the floor count.
- An existing database file: `CREATE TABLE IF NOT EXISTS` keeps the rows of an earlier run. `PadStop.Api.constructor` models a new file only; `Api.Valid` states what any starting cache must satisfy.
- Lone UTF-16 surrogates: Dafny strings hold Unicode scalar values. `Buffer.from` turns every lone surrogate into U+FFFD, so two JavaScript strings that differ only there share a key. `AddressKey.KeyForInjective` covers well-formed strings only.
- `JsParseInt.IsStrWhiteSpace` lists the space separators of current Unicode. An engine built on an older Unicode version may differ.
- The TypeError messages `PadStop.NoCandidate` and `PadStop.NoElements` are the wording of V8 9.3 or later, with the destructuring of `geo` left native. Compiled to ES5, line 63 reads `geo.latitude`, and the message becomes "Cannot read properties of undefined (reading 'latitude')". The messages of a rejected geocoder or Overpass call are parameters.
- Replies that are not of the expected shape are not modelled: an element that is `null`, `elements` present but not an array, tag values that are not strings, a candidate without coordinates.
- A failure of the cache SELECT is not modelled.
- The regular-expression engine: `/(office|commercial)/i` is modelled as an ASCII lower-case substring test. Without the `u` flag ECMA-262 never case-folds a non-ASCII character to an ASCII one, so for these two words the test is exact.
