# NST BLR Superstars — a Dafny model of the profile server's decisions

The server (`index.js`) serves user profiles kept as one JSON file per user in
a `data` directory. It has four routes: a listing page (`/`), a JSON listing
(`/api/users`), a per-user JSON API (`/api/users/:username`) and a rendered
profile page (`/:username`). The profile page is themed with a contrast
chooser, which picks black or white text for the user's background colour.

This project models the deterministic decisions inside those handlers as pure
Dafny functions and proves their properties:

- **JsString** (`js_string.dfy`): the JavaScript string built-ins the code relies
  on. That is `indexOf`, `replace` with a string pattern (first occurrence
  only), `substr` (clipping), `endsWith` and `parseInt(s, 16)`. `parseInt`
  skips leading white space, takes one sign and an optional `0x`, reads the
  longest hex-digit prefix, and gives NaN (`None`) when it finds no digit.
  The model reads the digits as an exact integer. JavaScript rounds to a
  double, which differs for runs of 14 or more digits; the server parses
  only two-character slices (see "Left out"). The success path is described
  in both directions: every such split reads as the digit run's exact value,
  and every number read comes from such a split.
- **JsValue** (`js_value.dfy`): a parsed JSON value, JavaScript truthiness and
  property reads (`undefined` is `None`).
- **Contrast** (`contrast.dfy`): `getContrastColor`. The luminance is kept as
  the exact real `(0.299 r + 0.587 g + 0.114 b) / 255`. It is proved
  equivalent to the integer test `299 r + 587 g + 114 b > 127500`. The weights
  are the luma weights of ITU-R Recommendation BT.601. The source comment
  calls them a WCAG formula, but they are not the WCAG 2.x relative-luminance
  formula.
- **UserStore** (`user_store.dfy`): turning directory entries into usernames.
  It keeps the names ending in `.json` and removes the first `.json` from each.
- **Profile** (`profile.dfy`): the profile page as a view model. It holds the
  background, the text colour, whether the background image and the `<img>`
  appear, the title, and the labelled lines in order. Rendering fails, and the
  route answers 500 "Error parsing user data", in three cases: a `null`
  record; a truthy background colour that is not a string; and a shown value
  that the page's template literal cannot turn into text. A parsed object
  cannot be turned into text when it has its own `toString` member, because
  no JSON value can be called. An array cannot when one of its elements
  cannot. In the source all three throw inside the `try`.
- **Routes** (`routes.dfy`): each route as a function from the directory
  listing or the read outcome (ENOENT, other read error, parse failure,
  parsed record) to a status code and a body kind.

Some behaviours of the code that are easy to overlook, all modelled as written:

- `getContrastColor` removes the first `#` wherever it is, not only a leading one.
- Channels are read with `substr` and `parseInt`, so short, signed, spaced or
  `0x`-prefixed slices are read the way JavaScript reads them.
- The listing removes the first `.json` in a file name, which need not be the
  extension.
- A `null` record, a truthy non-string colour, and a shown value that cannot
  be turned into text are not guarded against. Each throws, and the route
  answers 500. A falsy colour of any type falls back to `#f5f5f5`.

## Model

| member | source | states |
|---|---|---|
| JsString.IndexOfFrom | index.js:28 | the result is the first position at or after `from` where the pattern occurs, and `None` means it occurs nowhere there |
| JsString.RemoveFirst | index.js:28 | `replace` with a string pattern removes exactly the first occurrence and returns the string unchanged when there is none |
| JsString.Substr | index.js:31-33 | `substr(start, length)` is at most `length` long, is the exact slice when it fits, runs to the end of the string when it starts inside it but would overrun, and is empty when `start` is past the end |
| JsString.EndsWith | index.js:51 | `endsWith` holds exactly when the suffix is no longer than the string and the string is some prefix followed by the suffix |
| JsString.TrimStart | index.js:31-33 | `parseInt`'s first step never lengthens the string |
| JsString.TrimStartDropsWhiteSpace | index.js:31-33 | `parseInt`'s first step drops exactly the leading white-space run: it keeps a suffix, everything dropped is white space, and what is kept does not start with white space |
| JsString.HexPrefix | index.js:31-33 | the digits `parseInt` reads are never longer than the string |
| JsString.HexPrefixIsLongestDigitRun | index.js:31-33 | the digits `parseInt` reads are the longest hex-digit prefix: a prefix, all hex digits, followed by a non-digit or the end |
| JsString.HexDigitValue | index.js:31-33 | a hex digit's value is below 16, and is 15 exactly for `f` and `F` |
| JsString.HexDigitValueIsPosition | index.js:31-33 | a hex digit's value is its position in `0123456789abcdef` or in `0123456789ABCDEF` |
| JsString.HexValue | index.js:31-33 | the value of n hex digits is below 16^n |
| JsString.ParseTrimmed | index.js:31-33 | read as an exact integer, a number read from an n-character string without leading white space is never read from an empty string, lies in 0 .. 16^n - 1 without a leading `-`, and in -16^(n-1) + 1 .. 0 with one |
| JsString.ParseInt16 | index.js:31-33 | read as an exact integer, a number parsed from an n-character string lies strictly between -16^(n-1) and 16^n |
| JsString.WhiteSpaceRunIsSkipped | index.js:31-33 | a run of white space of any length, followed by the end or a character that is not white space, is skipped exactly |
| JsString.DigitRunIsRead | index.js:31-33 | a run of hex digits followed by the end or a non-digit is read exactly up to its end |
| JsString.ParseTrimmedReads | index.js:31-33 | unfolding step used by `SignedDigitRunIsRead`, `SignedPrefixedRunIsRead` and `TrimmedNumberSplits`: whenever a digit run is found after the sign and the `0x` prefix, the result is its value, negated after a leading `-` |
| JsString.SignIsDropped | index.js:31-33 | one leading `+` or `-` is dropped before the digits, and the number is negated exactly after `-` |
| JsString.DigitRunHasNoPrefix | index.js:31-33 | a digit run is never taken for the `0x` prefix, unless it is a lone `0` followed by `x` or `X` |
| JsString.SignedRunStartsReading | index.js:31-33 | a sign or a hex digit is not white space, so skipping stops there |
| JsString.TrimmedIsParsed | index.js:31-33 | unfolding step used by `ParseDigitRun`, `ParsePrefixedDigitRun` and `ParsedWhiteSpaceSplits`: `parseInt` reads whatever is left once the leading white space is gone |
| JsString.SignedDigitRunIsRead | index.js:31-33 | an optional sign, then a digit run ended by the end or a non-digit (not a lone `0` before `x`), parses to the run's value, negated after `-` |
| JsString.ParseDigitRun | index.js:31-33 | the success path without a `0x` prefix: white space of any length, an optional sign, then a digit run ended by the end or a non-digit (not a lone `0` before `x`), parses to the run's value, negated after `-` |
| JsString.PrefixIsDropped | index.js:31-33 | a `0x` or `0X` prefix is dropped, whatever follows it |
| JsString.SignedPrefixedRunIsRead | index.js:31-33 | an optional sign, then `0x` or `0X`, then a digit run ended by the end or a non-digit, parses to the run's value, negated after `-` |
| JsString.ParsePrefixedDigitRun | index.js:31-33 | the success path with a `0x` prefix: white space of any length, an optional sign, `0x` or `0X`, then a digit run ended by the end or a non-digit, parses to the run's value, negated after `-` (`"0x1f"` is 31, `" -0x1f"` is -31) |
| JsString.UnsignedSplit | index.js:31-33 | what `parseInt` drops before the digits is at most one sign, and the number is negated exactly when it is `-` |
| JsString.PrefixSplit | index.js:31-33 | what `parseInt` drops after the sign is nothing, `0x` or `0X` |
| JsString.DigitSplit | index.js:31-33 | what `parseInt` reads is a run of hex digits, followed by the end or a non-digit |
| JsString.ParsedWhiteSpaceSplits | index.js:31-33 | a number parsed from a string is parsed from what follows its leading white space |
| JsString.TrimmedNumberSplits | index.js:31-33 | a number read after the white space comes from a sign, a prefix, a digit run and a rest, where without a prefix the run is not a lone `0` before `x`, and is the run's value, negated after `-` |
| JsString.UnprefixedRunIsNotLoneZero | index.js:31-33 | where no `0x` prefix was dropped, the digit run read is not a lone `0` followed by `x` or `X` |
| JsString.ParsedNumberSplits | index.js:31-33 | conversely to `SplitReadsAsNumber`, every number `parseInt` reads comes from white space, an optional sign, an optional `0x`, a digit run ended by the end or a non-digit (without a prefix, not a lone `0` before `x`), and a rest, and is the run's value, negated after `-` |
| JsString.SplitReadsAsNumber | index.js:31-33 | every string made of white space, an optional sign, an optional `0x`, a digit run ended by the end or a non-digit (without a prefix, not a lone `0` before `x`) and a rest parses to the run's value, negated after `-`; with `ParsedNumberSplits` these splits are exactly the strings `parseInt` reads a number from |
| JsString.DigitIsNotTrimmed | index.js:31-33 | a string starting with a hex digit has no leading white space to skip |
| JsString.OneDigitPrefix | index.js:31-33 | a lone hex digit is read whole |
| JsString.OneDigitValue | index.js:31-33 | a lone hex digit has its own value |
| JsString.OneDigitReads | index.js:31-33 | a lone hex digit, with no white space before it, reads as its value |
| JsString.ParseTwoHexDigits | index.js:31-33 | two hex digits parse to the byte 16·hi + lo |
| JsString.ParseOneHexDigit | index.js:31-33 | a one-character slice that is a hex digit parses to that digit's value |
| JsString.NoLeadingDigitIsNaN | index.js:31-33 | an empty slice, or one starting with a character that is not white space, a sign or a hex digit, is NaN |
| JsString.HexPrefixAloneIsNaN | index.js:31-33 | `parseInt("0x", 16)` and `parseInt("0X", 16)` are NaN, since no digit follows the prefix |
| JsString.SignIsAccepted | index.js:31-33 | a minus sign before a hex digit is accepted and negates it: `parseInt("-f", 16)` is -15 |
| JsString.WhiteSpaceIsSkipped | index.js:31-33 | a white-space character before a hex digit is skipped: `parseInt(" f", 16)` is 15 |
| JsString.TrailingCharactersAreIgnored | index.js:31-33 | reading stops at a non-digit after a hex digit (unless the two form `0x`): `parseInt("fg", 16)` is 15 |
| Contrast.Luminance | index.js:36 | for three bytes the luminance lies in [0, 1] |
| Contrast.ShortSliceInRange | index.js:31-33 | `parseInt` of at most two characters is NaN or lies in -15..255: at most `ff`, at least `-f` |
| Contrast.Channels | index.js:28-33 | each of the three channels is NaN or lies in -15..255 |
| Contrast.ContrastColor | index.js:23-40 | the result is always exactly `#000000` or `#ffffff`, and an absent or empty colour gives `#ffffff` |
| Contrast.LuminanceThreshold | index.js:36-39 | luminance > 0.5 holds exactly when 299 r + 587 g + 114 b > 127500 |
| Contrast.NoHashInHexDigits | index.js:28 | removing `#` from a string of hex digits changes nothing |
| Contrast.LeadingHashRemoved | index.js:28 | a leading `#` is the one removed, and only it |
| Contrast.SliceChannel | index.js:31-33 | a slice of two hex digits parses to their byte |
| Contrast.ChannelsOfSixDigits | index.js:28-33 | six hex digits, with or without `#`, read as the three bytes rr, gg, bb |
| Contrast.ColourOfChannels | index.js:36-39 | once all three channels are numbers, the text is black exactly when 299 r + 587 g + 114 b > 127500 |
| Contrast.SixDigitColour | index.js:28-39 | for `rrggbb` the answer is the same with or without `#`, and is black exactly when 299 r + 587 g + 114 b > 127500 |
| Contrast.GreyColour | index.js:31-39 | a grey `#vvvvvv` gets black text exactly when v > 127 |
| Contrast.WhiteBackground | index.js:31-39 | `#ffffff` gets black text |
| Contrast.BlackBackground | index.js:31-39 | `#000000` gets white text |
| Contrast.GreyAboveThreshold | index.js:31-39 | `#808080` gets black text |
| Contrast.GreyBelowThreshold | index.js:31-39 | `#7f7f7f` gets white text |
| Contrast.DefaultBackgroundColour | index.js:178-181 | the default background `#f5f5f5` gets black text |
| Contrast.AnyNaNChannelGivesWhite | index.js:31-39 | if any channel is NaN the text is white, whatever the other channels are |
| Contrast.ShortColourIsWhite | index.js:28-39 | four characters or fewer after the first `#` is removed leave the blue channel NaN, so white |
| Contrast.SecondHashStays | index.js:28-33 | only the first `#` is removed: `##ffffff` leaves `#f` as red, which is NaN, so white |
| Contrast.HashAfterDigitsRemoved | index.js:28 | a `#` after hex digits is the first one, and removing it joins the two sides |
| Contrast.HashAnywhereIsIgnored | index.js:28-39 | the first `#` is removed wherever it is: six hex digits with a `#` inserted at any position give the same colour as the digits alone |
| Contrast.NaNChannelGivesWhite | index.js:31-39 | `#0xffff` gets white text because its red slice `0x` is NaN |
| Contrast.ZeroRedCyan | index.js:31-39 | `#00ffff` gets black text, unlike `#0xffff` |
| Contrast.FiveDigitsClipBlue | index.js:28-39 | `substr` clips: for `#rrggb` the blue channel is the last digit's value, and the text is black exactly when 299 r + 587 g + 114 b > 127500 with that b |
| UserStore.StripJson | index.js:52 | removing `.json` never lengthens a name, and a name with no `.json` in it is returned unchanged |
| UserStore.LowerCaseNameHasNoExtension | index.js:52 | a name made of lower-case letters has no `.json` in it, so listing strips nothing from it but the extension |
| UserStore.JsonFiles | index.js:51 | the filter never grows the list |
| UserStore.Usernames | index.js:51-52 | there are never more usernames than directory entries |
| UserStore.JsonFilesMembers | index.js:51 | an entry is kept if and only if it is listed and ends in `.json` |
| UserStore.JsonFilesCounts | index.js:51 | each `.json` entry is kept as many times as it is listed, every other entry never |
| UserStore.JsonFilesConcat | index.js:51 | the filter distributes over concatenation, so directory order is kept |
| UserStore.UsernamesConcat | index.js:51-52 | the usernames of a concatenated listing are the concatenation of the usernames, so the order is the directory order |
| UserStore.StripJsonLength | index.js:52 | stripping a name that ends in `.json` removes exactly five characters |
| UserStore.StripJsonRoundTrip | index.js:51-52 | a username without `.json` in it, stored as `<username>.json`, is listed and stripped back to itself |
| UserStore.ListedNameReadsBack | index.js:52 | when `.json` occurs only as the extension, the listed name plus `.json` is the listed file |
| UserStore.InnerExtensionReadsOtherFile | index.js:52 | `x.jsonab.json` lists as `xab.json`, whose `.json` file is a different file |
| UserStore.DoubleExtension | index.js:52 | only the first `.json` is removed: `a.json.json` lists as `a.json` |
| UserStore.ListingKeepsUserFiles | index.js:51-52 | `<a>.json`, `<b>.json` and a non-`.json` file list as `[a, b]` in that order |
| UserStore.JsonFilesOfOne | index.js:51 | a one-entry listing keeps its entry exactly when it ends in `.json` |
| UserStore.TwoJsonFilesKept | index.js:51 | of two `.json` files and another file, the filter keeps the two, in order |
| UserStore.ExampleFileNames | index.js:51 | `alice.json` and `bob.json` are `alice` and `bob` with the extension, and `notes.txt` is not a `.json` file |
| UserStore.ListingExample | index.js:51-52 | `alice.json`, `bob.json`, `notes.txt` list as `["alice", "bob"]` |
| Routes.UserListRoute | index.js:43-105 | 200 exactly when the directory was read, with one link per username; otherwise 500 with "Error reading data directory" |
| Routes.ApiUsersRoute | index.js:109-122 | 200 exactly when the directory was read, with the usernames in order as JSON strings; otherwise 500 with `{error: 'Error reading data directory'}` |
| Routes.ApiUserRoute | index.js:125-144 | the status is 200, 404 or 500; 404 exactly for ENOENT; 200 exactly when the record parsed, sent back unchanged; every other answer is an `{error}` object |
| Routes.ProfileRoute | index.js:147-270 | the status is 200, 404 or 500; 404 exactly for ENOENT; 200 exactly when the record parsed and rendered, with the rendered view; every 500 is plain text |
| Routes.ListLinks | index.js:96-98 | the page has one link per username, in list order, with text `name` and target `/name` |
| Routes.ListRoutesAgree | index.js:43-120 | `/` and `/api/users` both give 500 exactly on a directory error; otherwise the JSON array holds, in order, the names `/` links to, which are the computed usernames |
| Routes.ApiUserOutcomes | index.js:129-143 | 404 `{error:'User not found'}` exactly for ENOENT; 500 with the read or parse error message; 200 with the parsed record unchanged exactly when it parsed |
| Routes.ProfileOutcomes | index.js:151-268 | 404 exactly for ENOENT, with a page whose sentence contains the username; 200 with the rendered view exactly when the record parsed and rendered; otherwise 500 plain text |
| Routes.UnprintableNameIsServerError | index.js:125-268 | a record whose `name` is an object with its own `toString` member gets 200 from the JSON route but 500 from the page |
| Routes.UserRoutesAgree | index.js:129-268 | both per-user routes give the same status for every outcome, except a parsed record that fails to render, which gives 200 from the API and 500 from the page |
| Profile.Customization | index.js:177 | the customization, or `{}` when it is falsy, is never `null`, so its properties can be read |
| JsValue.Get | index.js:177-180 | the definition of a property read, used by every decision lemma: reading a property gives a value exactly when the receiver is an object with that key, and then gives that member; reading from `null` is left to the caller, since it throws |
| JsValue.Or | index.js:177-180 | the definition of the default, used by `Customization`, `Render` and `TitleThrows`: the logical-or default gives the left operand when it is truthy and the right one otherwise |
| Profile.Background | index.js:178-181 | the background fails exactly when the colour is truthy but not a string, and otherwise is a non-empty string |
| Profile.LabelledLine | index.js:255-258 | line k appears, at most once, exactly when field k is truthy |
| Profile.Lines | index.js:255-258 | the card has at most four labelled lines |
| Profile.FirstUnprintable | index.js:184-258 | the result is the first position at or after `from` whose value cannot be turned into text, and `None` means every value there can |
| Profile.Render | index.js:177-258 | a rendered view's text colour is the contrast colour of its background, so it is black or white, and every value the page interpolates can be turned into text |
| Profile.RenderFailsExactly | index.js:173-258 | rendering fails exactly for a `null` record, a truthy non-string `backgroundColor`, or a present `backgroundImage`, `name`, `profileImage`, `username`, `email`, `bio` or `location` that cannot be turned into text |
| Profile.AnyUnprintableConcat | index.js:184-258 | a concatenation of interpolated values has one that cannot be turned into text exactly when one of its parts does |
| Profile.UnprintableIsTruthy | index.js:185-258 | a value that cannot be turned into text is truthy, so a `?:` guard never hides it |
| Profile.GuardedFragmentThrows | index.js:185-186 | a fragment guarded by its own value fails exactly when that value is present and cannot be turned into text |
| Profile.TitleThrows | index.js:195 | the title expression (`name`, else the username) cannot be turned into text exactly when `name` is present and cannot |
| Profile.LineValuesConcat | index.js:255-258 | the values shown by concatenated lines are the concatenated values |
| Profile.LinesThrow | index.js:255-258 | the labelled lines fail exactly when one of `username`, `email`, `bio` or `location` is present and cannot be turned into text |
| Profile.InterpolatedThrows | index.js:184-258 | a view's interpolated values fail exactly when one of the seven fields they come from is present and cannot be turned into text |
| Profile.RenderedBackground | index.js:177-181 | a rendered page's background is the one `Background` chose, and its text colour is the contrast colour of that background |
| Profile.BackgroundDecision | index.js:177-181 | the background is the customization's colour when truthy, else `#f5f5f5`, and with the default the text is black |
| Profile.BackgroundImageDecision | index.js:179-186 | the background-image clause appears exactly when `backgroundImage` is truthy, and carries its value |
| Profile.ProfileImageDecision | index.js:252 | the `<img>` appears exactly when `profileImage` is truthy, with that source |
| Profile.TitleFallback | index.js:195 | the title is `name` when truthy, otherwise the route's username; with a non-empty username it is always truthy, though a truthy `name` such as `[]` may print as empty text |
| Profile.LabelledLineShape | index.js:255-258 | a present labelled line k carries label k and the value of field k |
| Profile.LinesShowTruthyFields | index.js:255-258 | every line shows a truthy field under that field's label, with its value |
| Profile.LinesFollowCardOrder | index.js:255-258 | the lines follow the order Username, Email, Bio, Location |
| Profile.LinesShowEveryTruthyField | index.js:255-258 | every truthy field among username, email, bio and location has its line |

## Left out

- Rate limiting (index.js:10-17): the 100-requests-per-15-minutes window is the external `express-rate-limit` library, whose algorithm is not in this code.
- Static file serving, route registration order, `app.listen` and the start-up log line: framework wiring and process I/O.
- `fs.readdir` and `fs.readFile`: the directory listing and the read outcome are inputs (`Routes.DirListing`, `Routes.ReadOutcome`).
- `JSON.parse`: a foreign call. Its result is given as an outcome, and `res.json` is taken to send the parsed value unchanged.
- The literal HTML and CSS text: only the decisions are modelled. The listing page is its links, the not-found page is its sentence, and the profile page is `Profile.ProfileView`. The text that JavaScript's string conversion produces for interpolated non-string values (`[object Object]`, number formatting) is not modelled. Whether that conversion throws is modelled (`JsValue.Unprintable`).
- HTML escaping and path-traversal checks: the code does neither, and the model adds neither.
- Contrast.ContrastColor: evaluates the luminance exactly, not in IEEE doubles. When 299 r + 587 g + 114 b is within rounding of 127500, the source's floating-point comparison may decide otherwise.
- JsString: strings are sequences of Unicode code points, while JavaScript indexes UTF-16 code units. For colours or file names with characters outside the Basic Multilingual Plane, `substr` positions differ.
- JsString.ParseInt16: returns the exact integer the digit run denotes, while JavaScript's `parseInt` returns the nearest double. The two differ for runs of 14 or more hex digits: `20000000000001` is 2^53 + 1 in the model and 2^53 in JavaScript, and `ffffffffffffffff` reads as 16^16 there, outside the bound stated for `ParseInt16`. The server parses only slices of at most two characters, where the two agree.
- JsValue: JSON numbers are exact reals standing for the double `JSON.parse` produces, and only their truthiness is used. Rounding, overflow to `Infinity` and underflow are not modelled: a literal such as `1e-400` parses to `0`, which is falsy, so it must be given as `JNum(0.0)`; read as the exact real it denotes it would be truthy.
- JsValue.Get: finds only own members of a parsed object. The property names the server reads are not inherited by any JSON value, except through a prototype that `JSON.parse` never sets.
