# devcamper-api: list queries and course handlers in Dafny

This project models the core of the devcamper-api REST service, a bootcamp directory
built on Express and Mongoose:

- the list-query middleware `advancedResults` (`middleware/advancedResults.js`). It turns
  the URL query of a listing request into a store query. The reserved keys `select`,
  `sort`, `page` and `limit` are removed from the filter. The operator words `gt`, `gte`,
  `lt`, `lte` and `in` become `$gt` and so on. Comma lists become space lists. The page
  and page size come from `parseInt(…, 10) || default`. The result is cut to one page,
  and the `{success, count, pagination, data}` envelope goes on the response.
- the inline copy of that logic in `getBootcamps`, which also populates each bootcamp's
  courses and sends the envelope itself.
- the single-bootcamp read, update and delete, with their "Bootcamp not found" 404.
- the course handlers: the listing of one bootcamp's courses, the single-course read,
  and create, update and delete. Each mutation checks first that the record exists,
  then that the requester owns it or is an admin. Both refusals use status 404. Create
  stamps the bootcamp id and the requester id into the request body before either check.

Modules, one per file:

| file | module | contents |
|---|---|---|
| `wrappers.dfy` | `Wrappers` | `Option`, `Result` |
| `strings.dfy` | `Strings` | regrouping of string concatenations, a proof step |
| `js_parse_int.dfy` | `JsParseInt` | `parseInt(s, 10)` as section 19.2.5 of ECMA-262 defines it, with NaN as `None` |
| `text.dfy` | `Text` | `split(',')` / `join(' ')` on strings |
| `operator_rewrite.dfy` | `OperatorRewrite` | the global replacement of the whole words `gt`, `gte`, `lt`, `lte` and `in`, with word boundaries as section 22.2 of ECMA-262 defines it |
| `advanced_results.dfy` | `AdvancedResults` | the middleware: query plan, page window, pagination links, envelope |
| `store.dfy` | `Store` | documents, lookups by id, the error value, responses, the `Database` and `Request` objects |
| `bootcamps.dfy` | `Bootcamps` | the bootcamp handlers |
| `courses.dfy` | `Courses` | the course handlers and their guard |

The store is foreign code, so it appears as parameters and state:

- `Database` holds the two collections as sequences that the handlers reassign.
- The records the store finds for a filter, in the requested order and with the
  requested fields and relations, are the parameter `matched`.
- `countDocuments()` is the size of the whole collection.
- `skip(n).limit(m)` is a window on `matched`. MongoDB refuses a negative skip, which
  the model reports as `StoreError.NegativeSkip`. A negative limit returns at most
  `|m|` records.
- `JSON.stringify` of the filter is the parameter `serialize`.

## Model

| member | source | states |
|---|---|---|
| JsParseInt.ParseInt | middleware/advancedResults.js:42-43 | `parseInt(s, 10)`: drop leading white space, read an optional sign, then the longest run of decimal digits; no digits is NaN (`None`). Its properties are the rows below |
| JsParseInt.TrimStart | middleware/advancedResults.js:42-43 | parseInt first drops leading white space: the result is a suffix of the input, every dropped character is white space, and the result does not start with white space |
| JsParseInt.DigitPrefixLength | middleware/advancedResults.js:42-43 | the length of the longest run of decimal digits at the start of the string |
| JsParseInt.DecimalString | middleware/advancedResults.js:42-43 | the decimal numeral of a natural number is non-empty and all digits |
| JsParseInt.DecimalStringValue | middleware/advancedResults.js:42-43 | reading a decimal numeral back gives the number |
| JsParseInt.DigitsThenRest | middleware/advancedResults.js:42-43 | the digit prefix of digits followed by a non-digit is exactly those digits |
| JsParseInt.ParseMinus | middleware/advancedResults.js:42-43 | a leading `-` negates the value of the digits that follow, and keeps NaN as NaN |
| JsParseInt.ParseLeadingDigit | middleware/advancedResults.js:42-43 | a string that starts with a digit is parsed as its unsigned digit prefix |
| JsParseInt.ParseDigits | middleware/advancedResults.js:42-43 | digits followed by any non-digit text parse to the value of the digits; the rest is ignored |
| JsParseInt.UnsignedDecimal | middleware/advancedResults.js:42-43 | the unsigned reading of a decimal numeral followed by non-digit text is the number |
| JsParseInt.ParseNatural | middleware/advancedResults.js:42-43 | the decimal numeral of a natural number, followed by any non-digit text, parses to that number |
| JsParseInt.ParseNegative | middleware/advancedResults.js:42-43 | `-` and the decimal numeral of a natural number, followed by any non-digit text, parse to the negated number |
| JsParseInt.ParseMinusDigits | middleware/advancedResults.js:42-43 | a `-` in front of digits that read as a number gives its negation |
| JsParseInt.IntString | middleware/advancedResults.js:42-43 | the decimal form of an integer is non-empty and starts with `-` exactly when the integer is negative |
| JsParseInt.ParseDecimal | middleware/advancedResults.js:42-43 | round trip: the decimal form of any integer, with a `-` when negative and followed by any non-digit text, parses back to that integer |
| JsParseInt.ParseIntNaN | middleware/advancedResults.js:42-43 | `"abc"` and `""` are NaN |
| JsParseInt.ParseIntTwo | middleware/advancedResults.js:42 | `"2"` parses to 2 |
| JsParseInt.ParseIntTen | middleware/advancedResults.js:43 | `"10"` parses to 10 |
| JsParseInt.ParseIntMinusZero | middleware/advancedResults.js:42-43 | `"-0"` parses to zero (negative and positive zero are one value in the model) |
| JsParseInt.ParseSkipsSpace | middleware/advancedResults.js:42-43 | a leading white-space character does not change the result |
| Text.Split | middleware/advancedResults.js:29 | `split(',')` gives at least one part, and no part contains the separator |
| Text.Join | middleware/advancedResults.js:29 | `join(sep)`: the parts with the separator between each two neighbours, `""` for no parts; its meaning is stated by `Text.JoinSplit` and `Text.SplitJoinRoundTrip` |
| Text.ReplaceChar | middleware/advancedResults.js:29 | replacing one character keeps the length and changes exactly the positions that held it |
| Text.JoinSplit | middleware/advancedResults.js:29 | joining the parts of a split with a one-character glue is the same as replacing the separator by the glue |
| Text.SplitJoinRoundTrip | middleware/advancedResults.js:29 | joining the parts of a split with the separator gives back the original string |
| Text.CommasToSpaces | middleware/advancedResults.js:29 | `split(',').join(' ')` turns every comma into a space and changes nothing else; the result has the same length and no comma |
| Text.ReplaceAppend | middleware/advancedResults.js:35 | replacing characters distributes over concatenation |
| Text.ReplaceAbsent | middleware/advancedResults.js:35 | a string without commas is left as it is |
| Text.TwoFields | middleware/advancedResults.js:29 | `"a,b"` becomes `"a b"` for comma-free field names |
| OperatorRewrite.RewriteFrom | middleware/advancedResults.js:17-20 | the global replacement as a left-to-right scan: at a match, `$` and the match, then resume after it; otherwise copy one character. Its meaning is stated by `OperatorRewrite.RewriteFromIsMark` |
| OperatorRewrite.Rewrite | middleware/advancedResults.js:17-20 | the replacement over the whole serialised filter; its properties are the rows below |
| OperatorRewrite.MatchFrom | middleware/advancedResults.js:17-20 | the first alternative of the pattern that matches at a position as a whole word, or none when no alternative matches |
| OperatorRewrite.RewriteFromIsMark | middleware/advancedResults.js:17-20 | the left-to-right global replacement from any position equals the position-wise reference that puts `$` in front of every whole-word operator |
| OperatorRewrite.RewriteIsMark | middleware/advancedResults.js:17-20 | the whole replacement equals the position-wise reference |
| OperatorRewrite.RewriteLength | middleware/advancedResults.js:17-20 | the output is longer than the input by exactly the number of operator occurrences |
| OperatorRewrite.RewriteErase | middleware/advancedResults.js:17-20 | the replacement only inserts `$`: deleting every `$` from input and output gives the same text |
| OperatorRewrite.RewriteInverse | middleware/advancedResults.js:17-20 | on text without `$`, deleting every `$` from the output gives back the input |
| OperatorRewrite.RewriteUnchanged | middleware/advancedResults.js:17-20 | the text is unchanged exactly when it holds no whole-word operator |
| OperatorRewrite.RewriteConcat | middleware/advancedResults.js:17-20 | when no word runs across the junction, the replacement of a concatenation is the concatenation of the replacements |
| OperatorRewrite.RewriteOperator | middleware/advancedResults.js:17-20 | each operator word on its own becomes `$` followed by the word |
| OperatorRewrite.RewriteFlankedOperator | middleware/advancedResults.js:17-20 | an operator word between non-word characters gains its `$`, and the text on each side is rewritten on its own |
| OperatorRewrite.RewritePlainWord | middleware/advancedResults.js:17-20 | a word that is not exactly an operator, such as `length` or `gtx`, is left alone even when it contains one |
| OperatorRewrite.RewritePunctuation | middleware/advancedResults.js:17-20 | text without word characters is left alone |
| OperatorRewrite.RewriteIdempotentIff | middleware/advancedResults.js:17-20 | rewriting twice gives the same as rewriting once exactly when there is nothing to rewrite: the replacement is not idempotent |
| OperatorRewrite.RewriteTwice | middleware/advancedResults.js:17-20 | `gt` becomes `$gt` and then `$$gt` |
| OperatorRewrite.RewriteQuotedWord | middleware/advancedResults.js:17-20 | a quoted non-operator word is kept |
| OperatorRewrite.RewriteAverageCostExample | middleware/advancedResults.js:17-20 | `{"averageCost":{"gte":"1000"}}` becomes `{"averageCost":{"$gte":"1000"}}` |
| OperatorRewrite.RewriteEmbeddedExamples | middleware/advancedResults.js:17-20 | `length` and `index` are unchanged, although they contain `gt` and `in` |
| OperatorRewrite.RewriteValueFalsePositive | middleware/advancedResults.js:17-20 | the replacement also reaches values: `{"name":"in"}` becomes `{"name":"$in"}` |
| AdvancedResults.RemoveReservedKeys | middleware/advancedResults.js:5-11 | the filter is the request query without `select`, `sort`, `page` and `limit`, with every other key and value kept |
| AdvancedResults.FilterText | middleware/advancedResults.js:14-20 | the filter text handed to the store is the serialised filter with `$` inserted before each whole-word operator: it is longer by the number of operators, and deleting every `$` gives what deleting every `$` from the serialised filter gives |
| AdvancedResults.Projection | middleware/advancedResults.js:27-31 | a projection is set exactly when `select` is present and non-empty; its value is `select` with every comma made a space, so it has the length of `select` and no comma |
| AdvancedResults.SortOrder | middleware/advancedResults.js:34-39 | the `sort` list with commas turned into spaces when `sort` is present and non-empty, `-createdAt` otherwise |
| AdvancedResults.IntOr | middleware/advancedResults.js:42-43 | `parseInt(raw, 10)`, falling back to the default: the default when the key is missing or its value parses to NaN or 0, the parsed integer when it is a non-zero number; never zero when the default is not |
| AdvancedResults.PageNumber | middleware/advancedResults.js:42 | the page: 1 when `page` is missing or parses to NaN or 0, otherwise the parsed integer; never zero |
| AdvancedResults.PageSize | middleware/advancedResults.js:43 | the page size: 25 when `limit` is missing or parses to NaN or 0, otherwise the parsed integer; never zero |
| AdvancedResults.Plan | middleware/advancedResults.js:5-53 | the query the middleware builds: the rewritten filter without the reserved keys, the projection, the sort order, skip `(page-1)*limit`, the limit and the relation to populate; `AdvancedResults.BuildQuery` is proved to build it |
| AdvancedResults.PageAndSizeDefaults | middleware/advancedResults.js:42-43 | page and limit are the parsed integers, or 1 and 25 when the key is missing, is NaN or parses to zero; neither is ever zero |
| AdvancedResults.NonNumericPage | middleware/advancedResults.js:42 | `page=abc` gives the first page |
| AdvancedResults.Window | middleware/advancedResults.js:49 | `skip(n).limit(m)`: at most as many records as the absolute value of `m`, the matched records from `n` on in order, and nothing once `n` is past the end |
| AdvancedResults.Links | middleware/advancedResults.js:59-73 | the pagination object: `next` to page+1 when `page*limit < total`, `prev` to page-1 when `(page-1)*limit > 0`, each with the same limit; `AdvancedResults.BuildPagination` is proved to build it |
| AdvancedResults.Listing | middleware/advancedResults.js:44-80 | the envelope of one page, or the store's rejection of a negative skip; its properties are stated by `AdvancedResults.ListingShape` and `AdvancedResults.PositivePaging` |
| AdvancedResults.BuildPagination | middleware/advancedResults.js:59-73 | the pagination object built field by field equals the links function: `next` when `endIndex < total`, `prev` when `startIndex > 0` |
| AdvancedResults.BuildQuery | middleware/advancedResults.js:5-53 | the query built step by step equals the plan: the rewritten filter, the projection, the sort order, skip `(page-1)*limit`, the limit and the relation to populate |
| AdvancedResults.Run | middleware/advancedResults.js:1-83 | the middleware builds the plan and produces the envelope for the page; it stores the envelope on the response only when the store accepts the query |
| AdvancedResults.ListingShape | middleware/advancedResults.js:44-80 | for every page and limit: the store accepts exactly when the skip is non-negative; `count` is the number of records returned: none when `startIndex` is past the matches, otherwise the smaller of the remaining matches and the absolute limit; the data are the matched records from `startIndex` on; `next` and `prev` are there exactly under their conditions, with the same limit |
| AdvancedResults.StartIndexSign | middleware/advancedResults.js:44-45 | for page and limit of at least 1, `startIndex` is never negative, is positive exactly from page 2 on, and `endIndex` is one limit further |
| AdvancedResults.PositivePaging | middleware/advancedResults.js:44-80 | for page and limit of at least 1: the query is accepted, `prev` is there exactly when `page > 1`, and the data are the matched records from `(page-1)*limit` up to `page*limit`, cut at the end of the matches |
| AdvancedResults.SecondPageOfTwentyFive | middleware/advancedResults.js:42-80 | `?page=2&limit=10` over 25 records gives the 11th to 20th records, with links to pages 3 and 1 |
| AdvancedResults.NextLinkBeyondMatches | middleware/advancedResults.js:47 | `total` counts the whole collection, so a filter matching 3 of 30 records still gets a `next` link on page 1, and that next page is empty |
| Store.IndexOf | controllers/courses.js:92 | `findById`: the position of the first record with that id, or none when no record has it |
| Store.Find | controllers/courses.js:56 | `findById`: a record with that id from the collection exactly when one exists |
| Store.RemoveAt | controllers/courses.js:151 | removing a record keeps every other record in order |
| Store.Updated | controllers/bootcamps.js:121-124 | `findByIdAndUpdate`: the body's fields overwrite the record's, the other fields and the id are kept |
| Store.UpdateKeepsUnique | controllers/bootcamps.js:121-124 | an update keeps the id, so ids stay unique |
| Store.AppendKeepsUnique | controllers/courses.js:79 | adding a record with an id not yet in the collection keeps ids unique |
| Store.FindAfterUpdate | controllers/bootcamps.js:121-124 | after an update, every id is found at the same position, the updated id gives the new fields, and every other id gives the same record as before |
| Store.RemoveKeepsOthers | controllers/courses.js:151 | removing one record leaves the lookup of every other id as it was |
| Store.RemoveForgets | controllers/courses.js:151 | with unique ids, the id of a removed record is no longer found |
| Store.RemoveKeepsUnique | controllers/courses.js:151 | removing a record keeps the ids unique |
| Store.FindAfterRemove | controllers/bootcamps.js:148 | with unique ids, once the record found by id is removed, that id is no longer found, every other id gives the same record, and ids stay unique |
| Bootcamps.GetBootcamps | controllers/bootcamps.js:9-84 | the inline listing builds the same plan as the middleware with `courses` populated, and sends with status 200 the same envelope the middleware would produce; the store's rejection is passed on |
| Bootcamps.GetBootcamp | controllers/bootcamps.js:89-103 | the bootcamp with status 200 when it exists; otherwise 404 with "Bootcamp not found with id of" and the id |
| Bootcamps.UpdateBootcamp | controllers/bootcamps.js:120-133 | when the id exists, the body's fields are written into that bootcamp, a later lookup of the id gives the updated record, and the message "Updated bootcamp" is sent; otherwise 404 and nothing changes; courses are untouched, and the database invariant (unique ids, every record with an owner field) is kept |
| Bootcamps.DeleteBootcamp | controllers/bootcamps.js:138-154 | when the id exists, that bootcamp is removed, the id is no longer found, and `data: {}` is sent; otherwise 404 and nothing changes; ids stay unique |
| Bootcamps.NotFound | controllers/bootcamps.js:95 | the error for a missing bootcamp; its message and status are stated by `Bootcamps.NotFoundIs404` |
| Bootcamps.NotFoundIs404 | controllers/bootcamps.js:92-97 | the not-found error of the bootcamp handlers carries status 404 and names the id |
| Courses.Stamped | controllers/courses.js:52-53 | the stamped body makes a course that belongs to the bootcamp of the route and is owned by the requester |
| Courses.Check | controllers/courses.js:59-76 | the guard of the mutations: not found (404) when the record is missing, refused (404) when the requester is neither owner nor admin, otherwise no error; its meaning is stated by `Courses.CheckDecision` |
| Courses.CheckDecision | controllers/courses.js:59-76 | a mutation goes ahead exactly when the record exists and the requester owns it or is an admin; a missing record is reported as not found whoever asks; a refusal names the requester and the record; every refusal has status 404 |
| Courses.CoursesOf | controllers/courses.js:14 | `Course.find({bootcamp})`: only courses of that bootcamp, each taken from the collection, and every course of that bootcamp |
| Courses.ListedAfterCreate | controllers/courses.js:79 | a created course is listed last among its bootcamp's courses, and every other bootcamp's listing is unchanged |
| Courses.UnlistedAfterDelete | controllers/courses.js:151 | with unique ids, a removed course is not listed for any bootcamp |
| Courses.GetCourses | controllers/courses.js:11-24 | with a bootcamp id, that bootcamp's courses and their number with status 200; without one, the middleware's envelope as it is |
| Courses.GetCourse | controllers/courses.js:29-45 | the course with status 200 when it exists; otherwise 404 with "No course with the id of" and the id |
| Courses.CreateCourse | controllers/courses.js:50-85 | the body is stamped with the bootcamp id and the requester's id whatever the outcome; when the guard refuses, its error and nothing changes; when it lets the request through, the course is appended under the fresh id the store assigns and sent with status 200; the new course belongs to the bootcamp and is owned by the requester; ids stay unique |
| Courses.UpdateCourse | controllers/courses.js:90-124 | when the guard lets it through, the body's fields are written into that course and the updated course is sent; otherwise the guard's error and nothing changes |
| Courses.DeleteCourse | controllers/courses.js:129-157 | when the guard lets it through, that course is removed, its id is no longer found, and `data: {}` is sent; otherwise the guard's error and nothing changes; ids stay unique |

## Left out

- Running the store query is not modelled. The filter text, projection, sort order and
  populate are produced, and the store's answer is the parameter `matched`. No claim is
  made that `matched` agrees with the plan.
- `JSON.stringify` and `JSON.parse` of the filter are not modelled. Serialisation is the
  parameter `serialize`. A filter that no longer parses after the rewrite is not modelled.
- Repeated query keys, which Express turns into arrays, and nested query objects
  (`averageCost[gte]=1000`) are not modelled. Query values are strings.
- JsParseInt.ParseInt: integers are unbounded. Precision loss above 2^53 and results
  such as `Infinity` are not modelled.
- AdvancedResults.Window: the store's handling of a negative skip (rejection) and of a
  negative limit (a single batch of at most `|limit|` records) are assumptions about
  MongoDB. The middleware is a bare `async` function without a try/catch, so the
  rejection escapes it uncaught; what Express does with it next (no response is sent
  under Express 4) is outside the model, which reports it as `StoreError`.
- `getBootcampsInRadius`, geocoding and `createBootcamp` are not part of this model.
  `createBootcamp` only passes the body to the store.
- The `populate` of the course's bootcamp name and description in `getCourse` is not
  modelled. The course is returned as stored.
- Bootcamps.DeleteBootcamp: `bootcamp.remove()` triggers a pre-remove middleware of the
  Bootcamp model (controllers/bootcamps.js:147); the model files are not part of this
  model, so what that middleware does is outside it. The `db.courses == old(db.courses)`
  in its ensures is an assumption that the middleware leaves the courses alone.
  `bootcamp.remove()` is not awaited in the source; the model treats the removal as done
  before the response.
- Courses.DeleteCourse: `course.remove()` runs the Course model's remove middleware
  (controllers/courses.js:150); what that middleware does is outside this model. The
  `db.bootcamps == old(db.bootcamps)` in its ensures is an assumption that the middleware
  leaves the bootcamps alone.
- Bootcamps.UpdateBootcamp: `findByIdAndUpdate` runs the schema validators
  (`runValidators: true`); a body they reject makes the call fail and the error layer
  answer instead of 200. The model treats every update as accepted.
- Courses.CreateCourse: `Course.create` can reject the body (schema validation); the
  error layer then answers instead of 200. The model treats creation as accepted once
  the guard lets the request through. The new id is a parameter, required not to be in
  use, standing for the fresh id the store assigns.
- Courses.UpdateCourse: schema validators (`runValidators`) and the unawaited
  `course.save()` are not modelled. The update and the response see the same record.
- Every bootcamp and course is assumed to have a `user` field, and every course a
  `bootcamp` field, as the schemas are taken to require (the schema files are not part of
  this model). On a record without `user`, `bootcamp.user.toString()` and
  `course.user.toString()` (controllers/courses.js:69, 102, 141) throw, and the error
  layer answers instead; the guard `Courses.Check` does not model that case.
- Malformed ids, which Mongoose rejects with a cast error, are not modelled. An id is
  either found or not.
- Authentication (`protect`, `authorize`, `controllers/auth.js`) is not part of this
  model. The requester is given as a `User`.
- The error layer (`middleware/async.js`, the error handler) is not modelled. A handler's
  error is its `Failed` response.
- Concurrent requests are not modelled. Each handler runs alone against the store.
- `console.log` in the middleware is left out.
