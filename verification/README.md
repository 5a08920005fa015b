# Document upload server: intake rules and file icons, in Dafny

This project models the rules that the document-signing application's own
code decides. It does not model the parts handled by Express, by the `multer`
upload library or by React.

- **Upload server** (`backend/server.js`). It has five rules:
  - The file filter accepts a file only when its declared MIME type is one of
    five exact strings: PDF, JPEG, PNG, and the two Word formats.
  - The disk-storage `filename` rule builds the stored name. It replaces every
    character of the client's file name that is outside `[A-Za-z0-9.]` with
    `_`, then puts `<clock ms>-<random draw>-` in front.
  - The size limit is 10 MiB.
  - The upload error handler turns each error into a 400 response.
  - The `POST /api/upload-pc` route answers 400 when no file came and 200 with
    an echo of the file record when one did. The application-wide handler
    answers 500.
- **File list icon** (`frontend/src/app/page.tsx`, `getFileIcon`). The icon
  depends on the text after the last `.` of the name, lower-cased. `pdf` gets a
  page, `jpg`/`jpeg`/`png` a picture, `doc`/`docx` a memo, and anything else a
  paper clip.

The model has five modules:

- `Wrappers` holds `Option`.
- `Decimal` covers how JavaScript prints a non-negative integer, and reading
  that text back.
- `StoredNames` covers sanitising, the stored name, and parsing a stored name
  back into its parts.
- `UploadServer` covers the filter, the size constant, error mapping, the route,
  the middleware chain and the catch-all handler.
- `FileIcons` covers `split('.')`, `pop()`, lower-casing and the icon table.

Everything is pure: functions and lemmas. A response is the pair of its status
code and the JSON body passed to `res.status(...).json(...)`.

The clock reading and the random draw are parameters. `Date.now()` is a
`ClockMillis`: a natural number no larger than 8.64e15, the largest time a
JavaScript `Date` can hold. `Math.round(Math.random() * 1E9)` is a
`RandomDraw`: an integer from 0 to 10^9. Both are below 10^21, so JavaScript
prints them as plain decimal digits, as `Decimal.FromNat` does.

JavaScript strings are UTF-16 code units, and the sanitising regular
expression has no `u` flag, so it replaces one code unit at a time. A Dafny
`char` is a whole Unicode scalar value. `Sanitize` therefore writes `__` for a
character above U+FFFF, and its length is stated in UTF-16 code units.

`toLowerCase` is modelled on ASCII letters only. JavaScript lower-cases only
two non-ASCII characters into ASCII letters: U+212A becomes `k`, and U+0130
becomes `i` plus a combining dot. Neither letter appears in the icon table, so
every icon the model picks is the one the source picks.

Facts of the code that the model keeps:

- The success response carries exactly five file fields: `filename`,
  `originalName`, `size`, `mimetype` and `path` (server.js:79-85).
- `server.js` defines one route, `POST /api/upload-pc` (server.js:71). The
  frontend also calls `/api/files` and `/api/files/<uuid>` (page.tsx:32, 156,
  175), which `server.js` does not define.
- The time-and-random token goes in front of the sanitised name. Nothing in
  the code makes two stored names differ.

## Model

| member | source | states |
|---|---|---|
| `Decimal.FromNat` | cursor/signiture/sign/backend/server.js:43 | A clock reading or draw prints as a non-empty run of decimal digits with no leading zero (other than `0` itself) |
| `Decimal.ToNatFromNat` | cursor/signiture/sign/backend/server.js:43 | Reading the printed digits gives back the integer |
| `Decimal.NoOtherCharacter` | cursor/signiture/sign/backend/server.js:43-44 | Printed integers hold no non-digit, in particular no `-` |
| `StoredNames.Sanitize` | cursor/signiture/sign/backend/server.js:42 | The sanitised name has as many characters as the original has UTF-16 code units, and holds only `[A-Za-z0-9.]` and `_` |
| `StoredNames.Replacement` | cursor/signiture/sign/backend/server.js:42 | One character is replaced by itself when it is in `[A-Za-z0-9.]`, otherwise by one `_` per UTF-16 code unit |
| `StoredNames.Utf16LengthSnoc` | cursor/signiture/sign/backend/server.js:42 | Appending a character adds its one or two UTF-16 code units to the length |
| `StoredNames.SanitizeCodeUnits` | cursor/signiture/sign/backend/server.js:42 | For any name, the replacement of character `i` stands in the output at the UTF-16 position where that character starts |
| `StoredNames.SanitizeKeepsOrBlanks` | cursor/signiture/sign/backend/server.js:42 | For any name, a kept character stays at its UTF-16 position and every code unit of any other character becomes `_` |
| `StoredNames.SanitizeAt` | cursor/signiture/sign/backend/server.js:42 | For a name of one-code-unit characters, sanitising keeps the length and every position: a kept character stays, any other becomes `_` |
| `StoredNames.SanitizeKeepsSanitized` | cursor/signiture/sign/backend/server.js:42 | A name made only of kept characters and `_` is unchanged by sanitising |
| `StoredNames.SanitizeIdempotent` | cursor/signiture/sign/backend/server.js:42 | Sanitising an already-sanitised name returns it unchanged |
| `StoredNames.SanitizedHasNoSeparator` | cursor/signiture/sign/backend/server.js:42 | A sanitised name contains neither `/` nor `\` |
| `StoredNames.StoredName` | cursor/signiture/sign/backend/server.js:40-45 | `<now>-<draw>-<sanitised name>` starts with a digit, ends with the sanitised original name and holds only kept characters, `_` and `-` |
| `StoredNames.StoredNameIsOneComponent` | cursor/signiture/sign/backend/server.js:42-44 | A stored name has no path separator and is never `.` or `..`, so it stays inside the upload folder |
| `StoredNames.ParseStoredName` | cursor/signiture/sign/backend/server.js:43-44 | Inverse of the name rule: splits at the first two `-`; a parsed clock and draw are within their ranges |
| `StoredNames.ParseJoined` | cursor/signiture/sign/backend/server.js:44 | Any `<digits>-<digits>-<rest>` within range parses to its three parts |
| `StoredNames.StoredNameRoundTrip` | cursor/signiture/sign/backend/server.js:42-44 | Parsing a stored name gives back the clock reading, the draw and the sanitised original name |
| `UploadServer.FileFilter` | cursor/signiture/sign/backend/server.js:24-33 | Accept iff the MIME string is one of the five allowed ones; an accepted file has no error; a refused one gets the fixed invalid-type error and `false` |
| `UploadServer.AcceptedTypesExactly` | cursor/signiture/sign/backend/server.js:26-28 | The accepted MIME strings are exactly the five listed |
| `UploadServer.FilterIsCaseSensitive` | cursor/signiture/sign/backend/server.js:28 | For example, `APPLICATION/PDF` and `Image/PNG` are refused: the match is exact (the general statement is `AcceptedTypesExactly`) |
| `UploadServer.MaxFileSizeIsTenMiB` | cursor/signiture/sign/backend/server.js:53 | The size limit is 10·1024·1024 = 10485760 bytes |
| `UploadServer.MessageOf` | cursor/signiture/sign/backend/server.js:63-65 | The message the handler reads from an error: the library error's own message, or the other error's `message` property, absent when it has none |
| `UploadServer.HandleUploadError` | cursor/signiture/sign/backend/server.js:58-68 | Passes on iff there is no error; every error gives 400: the 10MB message for the library's `LIMIT_FILE_SIZE`, the error's own message otherwise |
| `UploadServer.Summary` | cursor/signiture/sign/backend/server.js:79-85 | The echo copies the file's `filename`, `originalname` (as `originalName`), `size`, `mimetype` and `path` unchanged |
| `UploadServer.SummaryDependsOnlyOnEchoedFields` | cursor/signiture/sign/backend/server.js:79-85 | Two uploads get the same echo iff they agree on those five fields; field name, encoding and destination are never echoed |
| `UploadServer.UploadRoute` | cursor/signiture/sign/backend/server.js:72-86 | 200 iff a file is present; with no file, 400 "No file was uploaded."; with one, the success message and the five file fields copied unchanged |
| `UploadServer.UploadChain` | cursor/signiture/sign/backend/server.js:71 | The route's chain answers only 200 or 400; 200 exactly when the upload passed with a file; a failed upload always gets an error body |
| `UploadServer.RefusedTypeAnswer` | cursor/signiture/sign/backend/server.js:24-68 | A file of a refused type is answered 400 with the invalid-type message |
| `UploadServer.OversizeAnswer` | cursor/signiture/sign/backend/server.js:59-61 | An oversize error is answered 400 with the 10MB message, whatever the library's own message |
| `UploadServer.EchoedNameReadsBack` | cursor/signiture/sign/backend/server.js:42-84 | The echoed filename of a stored upload parses back to its clock reading, draw and the sanitised echoed original name |
| `UploadServer.CatchAll` | cursor/signiture/sign/backend/server.js:90-93 | Any error reaching the last handler gives 500 "Something went wrong!" |
| `UploadServer.CatchAllHidesError` | cursor/signiture/sign/backend/server.js:90-93 | The 500 answer is the same for every error; nothing of the error leaks |
| `FileIcons.Split` | cursor/signiture/sign/frontend/src/app/page.tsx:85 | `split('.')` never returns an empty list, so `pop()` always yields a string |
| `FileIcons.SplitPiecesDotFree` | cursor/signiture/sign/frontend/src/app/page.tsx:85 | No piece of the split contains a dot |
| `FileIcons.JoinSplit` | cursor/signiture/sign/frontend/src/app/page.tsx:85 | Joining the pieces with `.` gives the name back |
| `FileIcons.Extension` | cursor/signiture/sign/frontend/src/app/page.tsx:85 | `split('.').pop()`: the last piece of the split, which never holds a dot |
| `FileIcons.LastPieceIsTail` | cursor/signiture/sign/frontend/src/app/page.tsx:85 | The last of dot-free pieces is the dot-free suffix of their join that is whole or follows a dot |
| `FileIcons.TailAfterLastDotUnique` | cursor/signiture/sign/frontend/src/app/page.tsx:85 | A name has only one such tail after its last dot |
| `FileIcons.ExtensionIsTail` | cursor/signiture/sign/frontend/src/app/page.tsx:85 | The extension is a dot-free suffix that is the whole name or follows a dot |
| `FileIcons.TailIsExtension` | cursor/signiture/sign/frontend/src/app/page.tsx:85 | Conversely, any such suffix is the extension |
| `FileIcons.NoDotMeansWholeName` | cursor/signiture/sign/frontend/src/app/page.tsx:85 | A name with no dot is its own extension |
| `FileIcons.TrailingDotMeansEmptyExtension` | cursor/signiture/sign/frontend/src/app/page.tsx:85 | A name ending in a dot has the empty extension |
| `FileIcons.ToLower` | cursor/signiture/sign/frontend/src/app/page.tsx:85 | Lower-casing keeps the length and maps each character in place to its lower-case form |
| `FileIcons.ExtensionOfLower` | cursor/signiture/sign/frontend/src/app/page.tsx:85 | Lower-casing the name and taking its extension is the same as taking the extension and lower-casing it |
| `FileIcons.IconFor` | cursor/signiture/sign/frontend/src/app/page.tsx:86-98 | The `switch`: always one of the four icons, and the paper clip exactly when the extension is not `pdf`, `jpg`, `jpeg`, `png`, `doc` or `docx` |
| `FileIcons.GetFileIcon` | cursor/signiture/sign/frontend/src/app/page.tsx:84-99 | Page iff the lower-cased extension is `pdf`; picture iff `jpg`/`jpeg`/`png`; memo iff `doc`/`docx`; paper clip iff none of these |
| `FileIcons.IconIgnoresCase` | cursor/signiture/sign/frontend/src/app/page.tsx:85-95 | Names equal up to letter case get the same icon (`X.PDF` and `x.pdf`) |
| `FileIcons.TrailingDotGetsClip` | cursor/signiture/sign/frontend/src/app/page.tsx:85-97 | A name ending in `.` gets the paper clip |
| `FileIcons.IconOfTail` | cursor/signiture/sign/frontend/src/app/page.tsx:85-98 | The icon is the table entry for the lower-cased tail after the last dot |
| `FileIcons.DotFreeNameIsItsOwnExtension` | cursor/signiture/sign/frontend/src/app/page.tsx:85-98 | A dot-free name is looked up whole (`PDF` alone gets the page) |
| `FileIcons.LastExtensionDecides` | cursor/signiture/sign/frontend/src/app/page.tsx:85-98 | For `stem.ext`, only `ext` decides the icon, whatever dots the stem has |

## Left out

- HTTP plumbing is not modelled: Express routing, the CORS headers (server.js:16-21) and `app.listen` (server.js:95-98). `UploadChain` covers only the order of the three handlers on the upload route.
- The internals of the upload library are not modelled: streaming to disk, counting bytes against the limit, removing partial files, and building `path` from the destination and the name. The library's outcome is an input to `UploadChain`, and only the limit constant is kept.
- Stored names are not claimed to be unique. The clock and the random source are parameters, and nothing in the code prevents two equal draws in the same millisecond.
- `StoredNames.ClockMillis` allows no negative clock reading. A clock set before 1970 would print with a leading `-`, and the model does not cover that.
- JavaScript strings holding a lone surrogate code unit cannot be written as a Dafny `string`, so they are not modelled.
- The model does not cover how the upload library decodes the client's file name from the multipart header.
- The upload-folder creation at startup (server.js:10-13) is a filesystem side effect and is not modelled.
- The console logging in the catch-all handler (server.js:91) is not modelled.
- The frontend's React state, `fetch` calls, toasts, `formatDate` (locale-dependent) and the viewer dialog are UI and are not modelled. Neither are the dashboard and login pages: they hold form handling and a hard-coded credential check, not rules of the core.
- `FileIcons.ToLower`: lower-cases ASCII letters only. As explained above, this never changes which icon is chosen.
- The `/api/files` and `/api/files/<uuid>` routes the frontend calls (page.tsx:32, 156, 175) are not defined in server.js, so they have no model.
