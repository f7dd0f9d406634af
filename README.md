# Birthday directory client: date helpers and navigation guard

This project models, in Dafny, the two pieces of decision logic in the birthday
directory's Vue client:

- the birthday helpers of `src/utils.js`. `toBirthdayDate` turns a raw backend
  value into a Date or `null`. `doFormattingOfBirthday` renders a Date, or a
  date-like string, as `dd/mm/yyyy`, as `dd/mm` when `noYear` is set, or as the
  placeholder `--/--/----`;
- the router of `src/router/index.js`. It has a static route table (`home` at
  `/`, `about`, `login`) and a `beforeEach` guard. The guard redirects a
  navigation to `login`, with `redirect = fullPath`, when its target requires
  authentication, is not `login` itself, and no non-empty `authToken` is
  stored. Every other navigation proceeds.

Both source files are pure decision logic, so the model is made of datatypes,
functions and lemmas. The one method is `Router.BeforeEach`. It follows the
guard callback statement by statement and returns the list of `next` calls the
callback makes.

Modules:

- `Wrappers`: `Option` and `Result`.
- `Text`: decimal digits, `String(n)` of an integral number, and
  `String.prototype.padStart`.
- `Js`: the JavaScript that the helpers rely on. It covers values and their
  truthiness, the text a template literal makes of a value, and a Date as its
  local-time fields. It also gives `new Date(text)`. That function reads the
  standard form `YYYY-MM-DDTHH:mm:ss` itself. A `Host` parameter decides
  everything the language leaves to the engine or to the time zone.
- `Birthday`: `toBirthdayDate` (`ToBirthdayDate`) and `doFormattingOfBirthday`
  (`FormatBirthday`).
- `Router`: the route table, the guard's decision (`Decide`) and the guard
  callback (`BeforeEach`).

Two facts about the formatter that are easy to miss:

- The formatter is not total. A truthy value that is not a Date and matches
  neither string shape reaches `d.getDate()` and throws. `FormatBirthday`
  returns `Err(TypeError)` there.
- The output length is not fixed. A Date whose year is not four digits renders
  with a shorter or longer year. The Invalid Date renders as `NaN/NaN/NaN`.

## Model

| member | source | states |
|---|---|---|
| `Js.FalsyValues` | src/utils.js:2 | `!v` holds exactly for undefined, null, false, 0, NaN and `''` |
| `Js.TemplateText` | src/utils.js:6 | `${v}` inserts a string as it is, and writes a number as text that reads back as that number |
| `Js.NewDate` | src/utils.js:6 | a `YYYY-MM-DDTHH:mm:ss` text with an out-of-range element is the Invalid Date, and one naming an existing day and time is read as that local time, whatever the host |
| `Text.NatToDigits` | src/utils.js:25-27 | the decimal text of a number is non-empty and all digits, and starts with `0` only for 0 |
| `Text.IntToString` | src/utils.js:25-31 | `String(n)` is digits for a non-negative number and starts with `-` for a negative one |
| `Text.PadStart` | src/utils.js:25-26 | `padStart` keeps the text as its suffix, fills only in front, and reaches the requested width |
| `Text.DigitsRoundTrip` | src/utils.js:25-27 | reading back the decimal text of a number gives that number |
| `Text.IntToStringRoundTrip` | src/utils.js:25-31 | `String(year)` reads back as the year, sign included |
| `Text.PaddedTwoDigitsOf` | src/utils.js:25-26 | a day or month from 1 to 99, zero-padded, is two digits that read back as it |
| `Birthday.ToBirthdayDate` | src/utils.js:1-8 | a falsy input gives `null`; otherwise the result is `null` or a valid Date, never the Invalid Date |
| `Birthday.IsoDateIsNoon` | src/utils.js:6-7 | a `yyyy-mm-dd` text naming an existing day becomes that day at 12:00:00, whatever the engine |
| `Birthday.IsoOutOfRangeIsNull` | src/utils.js:6-7 | a `yyyy-mm-dd` text with month outside 01-12 or day outside 01-31 gives `null`, whatever the engine |
| `Birthday.MatchesYmd` | src/utils.js:16-21 | a text of the `yyyy-mm-dd` shape never has the `dd/mm/yyyy` shape, so the order of the two tests does not matter |
| `Birthday.MatchesDmy` | src/utils.js:20-21 | a text of the `dd/mm/yyyy` shape is exactly its three groups joined with `/` |
| `Birthday.ReformatString` | src/utils.js:14-22 | the string block produces text exactly when the string has one of the two shapes |
| `Birthday.FormatBirthday` | src/utils.js:10-32 | a falsy input gives `--/--/----` whatever `noYear` is; the call throws exactly for a truthy non-Date that matches neither shape |
| `Birthday.YmdReordered` | src/utils.js:16-17 | a `yyyy-mm-dd` string becomes `dd/mm/yyyy` by moving its fields, with no range check and whatever `noYear` is |
| `Birthday.DmyUnchanged` | src/utils.js:20-21 | a `dd/mm/yyyy` string comes back unchanged whatever `noYear` is |
| `Birthday.StringBranchIdempotent` | src/utils.js:14-22 | formatting again any text the string branches produce gives the same text |
| `Birthday.UnmatchedStringThrows` | src/utils.js:14-25 | a non-empty string of neither shape falls through to `d.getDate()` and throws |
| `Birthday.WrongLengthThrows` | src/utils.js:14-25 | a non-empty string that is not ten characters long throws |
| `Birthday.PlaceholderThrows` | src/utils.js:11-25 | the placeholder is not a text the formatter accepts back: it throws |
| `Birthday.TwoDigits` | src/utils.js:25-26 | a day or month from 1 to 99 becomes two digits that read back as it; NaN stays `NaN` |
| `Birthday.RenderDate` | src/utils.js:24-31 | a valid Date renders as five characters with `noYear`, and as six plus the length of its year's text without; the Invalid Date renders as `NaN/NaN` or `NaN/NaN/NaN` |
| `Birthday.RenderedFull` | src/utils.js:24-31 | a valid Date renders as its padded day, `/`, its padded month, `/`, and exactly `String(getFullYear())` |
| `Birthday.DayMonthRendering` | src/utils.js:24-30 | with `noYear` a valid Date gives five characters: two digits that read back as its day, `/`, two digits that read back as its month |
| `Birthday.FullDateRendering` | src/utils.js:24-31 | without `noYear` a valid Date gives its padded day and month as above, `/`, and exactly the unpadded text of its full year, which reads back as the year |
| `Birthday.FullRenderingShape` | src/utils.js:20-31 | with a year from 1000 to 9999 the full rendering has the `dd/mm/yyyy` shape |
| `Birthday.DateRenderingStable` | src/utils.js:20-31 | with a year from 1000 to 9999 the full rendering formats again to itself |
| `Birthday.DayMonthRenderingThrows` | src/utils.js:14-30 | the `dd/mm` rendering is not a text the formatter accepts back: it throws |
| `Birthday.InvalidDateRendering` | src/utils.js:24-31 | the Invalid Date renders as `NaN/NaN`, or `NaN/NaN/NaN` with the year |
| `Birthday.NormalizedNeverThrows` | src/utils.js:1-31 | formatting the result of `toBirthdayDate` never throws, and it gives the placeholder exactly when that result is `null` |
| `Birthday.IsoRoutesAgree` | src/utils.js:6-31 | a `yyyy-mm-dd` birthday with a year from 1000 on renders the same through `toBirthdayDate` as straight from the string; only the Date route honours `noYear` |
| `Birthday.IsoRoutesDisagreeBelowYear1000` | src/utils.js:6-31 | with a year below 1000 the Date route writes a shorter year, so the two routes differ |
| `Birthday.YmdExample` | src/utils.js:16-17 | `"2024-03-05"` formats as `"05/03/2024"` |
| `Birthday.OutOfRangeExample` | src/utils.js:16-17 | `"2024-13-99"` formats as `"99/13/2024"` even with `noYear` |
| `Birthday.DmyExample` | src/utils.js:11-21 | `"05/03/2024"` comes back unchanged and `''` gives the placeholder, both with `noYear` |
| `Birthday.DateExample` | src/utils.js:24-30 | 5 March 2024 with `noYear` formats as `"05/03"` |
| `Router.Routes` | src/router/index.js:6-26 | the declared routes have distinct names, and the `login` route the guard redirects to is among them and does not require auth |
| `Router.Decide` | src/router/index.js:30-40 | the guard only ever redirects to `login`, and the redirect carries the target's full path |
| `Router.BeforeEach` | src/router/index.js:30-40 | the callback calls `next` exactly once per navigation, with the guard's decision |
| `Router.Lookup` | src/router/index.js:6-26 | a record is found by name only if it is in the table and has that name; when none is found, no record has the name |
| `Router.ResolveNamed` | src/router/index.js:6-26 | a navigation by name resolves to a target with that name |
| `Router.AuthenticatedIff` | src/router/index.js:31 | the user counts as authenticated exactly when a non-empty `authToken` is stored |
| `Router.RedirectIff` | src/router/index.js:33-39 | a navigation is redirected exactly when its target requires auth, nobody is signed in, and the target is not `login` |
| `Router.ProtectedRouteRedirects` | src/router/index.js:33-36 | such a navigation goes to `login` with `redirect` set to its full path |
| `Router.LoginNeverRedirected` | src/router/index.js:35 | a navigation to `login` proceeds even when its meta requires auth |
| `Router.PublicRouteProceeds` | src/router/index.js:33-38 | a target that does not require auth proceeds, whatever is stored |
| `Router.AuthenticatedProceeds` | src/router/index.js:33-38 | an authenticated user proceeds on every route |
| `Router.OnlyHomeProtected` | src/router/index.js:7-25 | in the table only `home` requires auth, and no two records share a name |
| `Router.TableDecisions` | src/router/index.js:6-40 | on the declared routes only a navigation to `home` without a non-empty token is redirected |
| `Router.NoRedirectChain` | src/router/index.js:21-38 | the redirect's route exists, does not require auth, and its navigation proceeds, so no chain is longer than one |
| `Router.NoRedirectChainAnyTable` | src/router/index.js:30-40 | with any table, a redirected navigation that resolves proceeds |
| `Router.Examples` | src/router/index.js:30-40 | `home` without a token or with `''` goes to login, with a token it proceeds; `login` marked as protected proceeds; an unprotected target proceeds |

## Left out

- `createRouter`, `createWebHistory` and `import.meta.env.BASE_URL` (src/router/index.js:4-5), the view components and their lazy `import()`. These are framework plumbing. Only the route metadata is modelled, as data.
- `localStorage.getItem('authToken')` is not called. The stored item is an input: `None` for `null`, `Some(s)` for a stored string.
- Matching a URL to a route is not modelled. How `to.name`, `to.fullPath` and `to.meta` are derived from a URL, and how `meta` merges over nested records, are inputs. Resolving a navigation by route name is modelled (`ResolveNamed`). `from` is not used by the guard.
- The full path of the redirected navigation depends on the framework's query encoding. The chain lemmas hold for every full path.
- A named navigation to a name missing from the table makes the framework throw. `ResolveNamed` returns `None` there.
- src/api/urls.js is not part of this model. It only joins a deployment host with two fixed paths. The shown code has no paging or search query builder.
- `new Date(text)` spells out only the form `YYYY-MM-DDTHH:mm:ss` that `toBirthdayDate` builds from a `yyyy-mm-dd` text. The host decides every other text, a day the month lacks (2023-02-30) and 24:00:00. The host also decides `Date.prototype.toString` of a Date, which depends on the time zone.
- Local times that a time zone skips at a daylight-saving change are not modelled. For the standard form, the model's Date reads back the written fields. `toBirthdayDate` always asks for noon.
- The JavaScript time-value range (about ±273,790 years around 1970) is not modelled. A Date's year is unbounded. The standard form only writes years 0000-9999, which lie inside that range.
- Numbers are integers or NaN. Fractions, infinities and the exponent notation of `String(n)` for very large numbers are not modelled. The helpers receive strings, `null` or Dates.
- Arrays, functions, symbols and BigInt values are not modelled. Other objects are `PlainObject`, whose text is `[object Object]` and which has no `getDate`. An object with its own `getDate` or `toString` is not modelled.
- `noYear` is a boolean. The source tests its truthiness.
