# Workshop API: stores and payload rules in Dafny

This project models the core of a small ASP.NET Core workshop API. That core has three parts:

- **The workshop store** (`WorkshopService`). It lists workshops, optionally filtered by a title search and always ordered by date. It also looks a workshop up by id, creates one, overwrites one and deletes one.
- **The session store** (`SessionService`). It does the same for the sessions of one workshop, keyed by the pair (workshop id, session id). It lists and creates sessions only under a workshop that exists.
- **The payload rules.**
  - The `[Required]`, `[MinLength(3)]`, `[FutureDate]` and `[Range(1, int.MaxValue)]` attributes on the workshop payloads.
  - The `[FutureDate]` attribute's date-only "today or later" check.
  - The session payload's cross-field check `Validate`: start not before now, end after start.

The database is the class `Data.AppDbContext`. It holds the two tables `workshops: map<Guid, Workshop>` and `sessions: map<Guid, Session>`, each keyed by the row's own id; `Valid()` states that keying.

The services are classes holding that context. Their listing and lookup methods change nothing. Their create, update and delete methods have `modifies db` and state the whole new state of both tables, with one exception. After `WorkshopService.Delete` removes a workshop, the Sessions table is left unstated (see "## Left out").

`DateTime` is a count of 100-nanosecond ticks. `DateTime.Date` is `Time.DatePart`.

The clock reading (`DateTime.UtcNow`) and the fresh id (`Guid.NewGuid()`) are parameters, named `now` and `newId`.

Strings are `seq<char>`, so the model writes these .NET operations out:

- `char.IsWhiteSpace`;
- `string.IsNullOrWhiteSpace`;
- `string.Trim`;
- substring containment, which is what a `LIKE '%term%'` pattern asks for;
- `string.Length`, which counts UTF-16 code units (`Text.Utf16Length`). A character outside the Basic Multilingual Plane counts twice.

Validation results are lists of `(member, message)` errors. The property attributes of a payload are checked one property at a time, in declaration order, and every failing attribute is reported. For the session payload, `Validate` runs only when every property attribute holds; this is how ASP.NET Core model validation composes `IValidatableObject`. The messages of `[Required]` and `[MinLength]` are the framework defaults, which the payload classes do not override.

Two details follow what the code does, where its own comments and messages suggest otherwise:

- `[MinLength(3)]` measures the raw, untrimmed title in UTF-16 code units. The comment at WorkshopCreateDto.cs:7 says "at least 3 chars", yet `"  a"` is accepted and then stored as `"a"`; `WorkshopCreateDtos.RawTitleLengthCounts` proves this. Two characters outside the Basic Multilingual Plane make four code units, so such a title is accepted too (`WorkshopCreateDtos.SurrogatePairsCountTwice`).
- The session start-time check rejects only `StartTime < now` (SessionBaseDto.cs:40). A start equal to the clock reading is therefore accepted; `SessionDtos.StartAtNowIsAccepted` proves this. The class comment (SessionBaseDto.cs:12) speaks of a "future start", and the message (SessionBaseDto.cs:42) says "must be in the future".

The module `Scenarios` is client code over arbitrary inputs. Each of its methods is verified from the operations' contracts alone. Most restate one of the repository's service tests:

- `CreateStoresTrimmedTexts`: tests/Workshop.Api.Tests/WorkshopServiceTests.cs:41-61.
- `SearchFiltersByTitle`: WorkshopServiceTests.cs:13-24.
- `ListingIsOrderedByDate`: WorkshopServiceTests.cs:27-38.
- `MissingParentOrSession`: its first assertion restates tests/Workshop.Api.Tests/SessionServiceTests.cs:15-23. Its create and update steps under a missing key are scenarios of this model's own.
- `CreateSessionUnderWorkshop`: SessionServiceTests.cs:43-63.
- `DeletedWorkshopIsGone` is a scenario of this model's own.

## Model

| member | source | states |
|---|---|---|
| Text.IsWhiteSpace | src/Workshop.Api/Services/WorkshopService.cs:34 | The characters `char.IsWhiteSpace` accepts: U+0009 to U+000D, U+0085, the Unicode space separators, and the line and paragraph separators U+2028 and U+2029. |
| Text.IsNullOrWhiteSpace | src/Workshop.Api/Services/WorkshopService.cs:34 | `string.IsNullOrWhiteSpace`: null, or every character is white space (the empty string included). |
| Text.Trim | src/Workshop.Api/Services/WorkshopService.cs:36 | `string.Trim` is never longer than its input. `Text.TrimSlice` gives its full characterisation. |
| Text.Contains | src/Workshop.Api/Services/WorkshopService.cs:37 | The `LIKE '%term%'` test, scanning the title from the left. `Text.ContainsOccurs` gives its meaning. |
| Text.CodeUnits | src/Workshop.Api/Dtos/WorkshopCreateDto.cs:9 | A character takes two UTF-16 code units exactly when it lies outside the Basic Multilingual Plane, and one otherwise. |
| Text.Utf16Length | src/Workshop.Api/Dtos/WorkshopCreateDto.cs:9 | `string.Length`, as `[MinLength]` measures it: at least the number of characters and at most twice it. |
| Text.Utf16LengthConcat | src/Workshop.Api/Dtos/WorkshopCreateDto.cs:9 | The code units of a concatenation are the sum of those of its parts. |
| Text.Utf16LengthOfBasicPlane | src/Workshop.Api/Dtos/WorkshopCreateDto.cs:9 | For text inside the Basic Multilingual Plane, `string.Length` is the number of characters. |
| Annotations.RequiredIsValid | src/Workshop.Api/Dtos/WorkshopCreateDto.cs:8 | `[Required]` on a string, with empty strings not allowed: the value is neither null nor white space. |
| Annotations.MinLengthIsValid | src/Workshop.Api/Dtos/WorkshopCreateDto.cs:9 | `[MinLength(n)]`: null passes; otherwise the untrimmed `string.Length` is at least `n`. |
| Annotations.RangeIsValid | src/Workshop.Api/Dtos/WorkshopCreateDto.cs:20 | `[Range(minimum, maximum)]` on an int: both bounds inclusive. |
| Annotations.RequiredMessage | src/Workshop.Api/Dtos/WorkshopCreateDto.cs:8 | The framework's default `[Required]` message, "The {member} field is required.". |
| Annotations.MinLengthMessage | src/Workshop.Api/Dtos/WorkshopCreateDto.cs:9 | The framework's default `[MinLength]` message, naming the member and the length. |
| FutureDate.Errors | src/Workshop.Api/Dtos/FutureDateAttribute.cs:41 | A success contributes no error. A failure contributes exactly one error, for the validated member, with the attribute's message. |
| WorkshopServices.MatchesSearch | src/Workshop.Api/Services/WorkshopService.cs:34-38 | The search filter: none for a null or blank term, otherwise the title must contain the trimmed term. `WorkshopServices.SearchSemantics` states its meaning. |
| WorkshopServices.MapToResponseDto | src/Workshop.Api/Services/WorkshopService.cs:118-124 | The workshop response copies Id, Title, Date and MaxParticipants. `WorkshopServices.MapToResponseDtoDropsDescription` states what it keeps and loses. |
| SessionServices.MapToResponseDto | src/Workshop.Api/Services/SessionService.cs:103-110 | The session response copies every column. `SessionServices.MapToResponseDtoIsInjective` states that it loses nothing. |
| Text.TrimSlice | src/Workshop.Api/Services/WorkshopService.cs:36 | `Trim(s)` is the slice of `s` that starts right after its leading white space and is followed only by white space. It neither starts nor ends with a white-space character, and it is empty exactly when `s` is all white space. |
| Text.TrimIdempotent | src/Workshop.Api/Services/WorkshopService.cs:36 | Trimming an already trimmed string changes nothing. |
| Text.TrimOfTrimmed | src/Workshop.Api/Services/WorkshopService.cs:62-63 | A string with no white space at either end is stored unchanged by `Trim`. |
| Text.TrimStripsPadding | src/Workshop.Api/Services/WorkshopService.cs:62-63 | `Trim(pre + s + post) == s` for white-space padding `pre` and `post` and a text `s` with no white space at either end. |
| Text.TrimNonBlank | src/Workshop.Api/Services/WorkshopService.cs:34-36 | A value that is not null or white space trims to a non-empty string. |
| Text.ContainsOccurs | src/Workshop.Api/Services/WorkshopService.cs:37 | The containment test holds exactly when the term occurs at some index of the title. |
| Time.DatePart | src/Workshop.Api/Dtos/FutureDateAttribute.cs:36 | `DateTime.Date` is the midnight that starts the day: at most `t`, less than a day before it, and a whole number of days. |
| Time.DatePartOrder | src/Workshop.Api/Dtos/FutureDateAttribute.cs:36 | `date.Date >= now.Date` exactly when `date` is at or after today's midnight. |
| Sorting.InsertionSort | src/Workshop.Api/Services/WorkshopService.cs:40-42 | The result is ordered by the key, with no decrease along it, and is a permutation of the input (same multiset). |
| Queries.Where | src/Workshop.Api/Services/WorkshopService.cs:32-38 | Every returned row is a stored row under its own key that satisfies the filter. Every stored row that satisfies the filter is returned. No row is returned twice. |
| Queries.OrderBy | src/Workshop.Api/Services/WorkshopService.cs:40-42 | The rows ordered by key: the same rows, each still once, as a permutation. |
| Queries.SortedWhere | src/Workshop.Api/Services/SessionService.cs:24-28 | "Where" then "OrderBy": a row is returned exactly when it is stored under its own key and satisfies the filter. No row is returned twice, and the result is ordered by the key. |
| Annotations.RequiredMinLengthErrors | src/Workshop.Api/Dtos/WorkshopCreateDto.cs:8-10 | `[Required] [MinLength(n)]`: no error exactly when the value is present, not white space and at least `n` UTF-16 code units long before trimming. The errors are all about that member. The `[Required]` error is present exactly when the value is null or white space. |
| FutureDate.IsValid | src/Workshop.Api/Dtos/FutureDateAttribute.cs:28-42 | null passes and an object that is not a DateTime fails. A DateTime passes exactly when it is not before today's midnight. Every failure carries the message "Date must be today or in the future.". |
| FutureDate.AnyTimeTodayIsValid | src/Workshop.Api/Dtos/FutureDateAttribute.cs:35-39 | Any time of today passes, however early. |
| FutureDate.EarlierDayIsInvalid | src/Workshop.Api/Dtos/FutureDateAttribute.cs:36-41 | Any time of an earlier day fails with the attribute's message, however late. |
| FutureDate.ValidIsMonotone | src/Workshop.Api/Dtos/FutureDateAttribute.cs:36 | A date later than a valid date is valid. |
| FutureDate.RejectionIsPermanent | src/Workshop.Api/Dtos/FutureDateAttribute.cs:36 | A date rejected at one clock reading stays rejected at every later one. |
| WorkshopCreateDtos.Validate | src/Workshop.Api/Dtos/WorkshopCreateDto.cs:5-22 | The payload meets no error exactly when all four rules hold: the title is present, not blank and at least 3 UTF-16 code units long; the description is present and not blank; the date is not on an earlier day; at least one participant is allowed. |
| WorkshopCreateDtos.TitleErrors | src/Workshop.Api/Dtos/WorkshopCreateDto.cs:8-10 | The Title errors are all about Title. There are none exactly when the title is present, not blank and at least 3 UTF-16 code units long before trimming. |
| WorkshopCreateDtos.DescriptionErrors | src/Workshop.Api/Dtos/WorkshopCreateDto.cs:13-14 | The Description errors are all about Description. There are none exactly when `[Required]` holds. |
| WorkshopCreateDtos.DateErrors | src/Workshop.Api/Dtos/WorkshopCreateDto.cs:16-17 | The only possible Date error is the attribute's message. There is none exactly when the date is at or after today's midnight. |
| WorkshopCreateDtos.MaxParticipantsErrors | src/Workshop.Api/Dtos/WorkshopCreateDto.cs:20-21 | The only possible MaxParticipants error is "Max participants must be at least 1.". There is none exactly when the value is at least 1. |
| WorkshopCreateDtos.TitleRule | src/Workshop.Api/Dtos/WorkshopCreateDto.cs:8-10 | A Title error is reported exactly when the title is null or white space, or shorter than 3 UTF-16 code units before trimming. |
| WorkshopCreateDtos.DescriptionRule | src/Workshop.Api/Dtos/WorkshopCreateDto.cs:13-14 | A Description error is reported exactly when the description is null or white space. |
| WorkshopCreateDtos.DateRule | src/Workshop.Api/Dtos/WorkshopCreateDto.cs:16-17 | The FutureDate error is reported exactly when the date falls on a day before today. |
| WorkshopCreateDtos.MaxParticipantsRule | src/Workshop.Api/Dtos/WorkshopCreateDto.cs:20-21 | The Range error, with its declared message, is reported exactly when MaxParticipants is below 1. |
| WorkshopCreateDtos.AcceptedTextsTrimToNonEmpty | src/Workshop.Api/Dtos/WorkshopCreateDto.cs:8-14 | An accepted payload's title and description are still non-empty after the service trims them. |
| WorkshopCreateDtos.RawTitleLengthCounts | src/Workshop.Api/Dtos/WorkshopCreateDto.cs:9-10 | `"  a"` passes `[MinLength(3)]` because the raw length counts, yet it trims to `"a"`. |
| WorkshopCreateDtos.SurrogatePairsCountTwice | src/Workshop.Api/Dtos/WorkshopCreateDto.cs:9-10 | A title of two characters outside the Basic Multilingual Plane has `string.Length` 4 and passes `[MinLength(3)]`. |
| WorkshopUpdateDtos.Validate | src/Workshop.Api/Dtos/WorkshopUpdateDto.cs:8-28 | Built from this class's own attribute list. No error exactly when the title is present, not blank and at least 3 UTF-16 code units long, the description is present and not blank, the date is not on an earlier day, and MaxParticipants is at least 1. Each property's error is reported exactly when its own rule fails, with the message this class declares for MaxParticipants. |
| WorkshopUpdateDtos.SameVerdictAsCreate | src/Workshop.Api/Dtos/WorkshopUpdateDto.cs:8-28 | The two separately declared attribute lists agree: the update validator reports the same errors as the create validator for the same fields, so both accept the same payloads. |
| SessionDtos.Validate | src/Workshop.Api/Dtos/SessionBaseDto.cs:38-49 | The StartTime error is present exactly when start < now. The EndTime error is present exactly when end <= start. No other error appears. When both fail, both are reported, StartTime's first. When only one fails, its error is the only one. No error exactly when now <= start < end. |
| SessionDtos.PropertyErrors | src/Workshop.Api/Dtos/SessionBaseDto.cs:20-28 | The attribute errors are all about Title. There are none exactly when the title is present, not blank and at least 3 UTF-16 code units long before trimming. |
| SessionDtos.ValidateModel | src/Workshop.Api/Dtos/SessionBaseDto.cs:18-49 | A session payload is accepted exactly when its title rules hold and now <= start < end. A Title error means only the attribute errors are reported. With no attribute error, the result is exactly what `Validate` reports. |
| SessionDtos.StartAtNowIsAccepted | src/Workshop.Api/Dtos/SessionBaseDto.cs:40-43 | A start time equal to the clock reading, with a later end, meets no error. |
| SessionDtos.AcceptedSessionIsChronological | src/Workshop.Api/Dtos/SessionBaseDto.cs:38-49 | An accepted payload starts no earlier than now, ends after it starts, and has a title that stays non-empty once trimmed. |
| Data.AppDbContext.constructor | src/Workshop.Api/Data/AppDbContext.cs:10-14 | A fresh context has two empty tables and satisfies `Valid()`. |
| WorkshopServices.MapToResponseDtoDropsDescription | src/Workshop.Api/Services/WorkshopService.cs:118-124 | Two rows give the same response exactly when they agree on Id, Title, Date and MaxParticipants. Put differently, they differ at most in Description. |
| WorkshopServices.SearchSemantics | src/Workshop.Api/Services/WorkshopService.cs:34-38 | A null or blank search filters nothing. A non-blank one keeps exactly the titles in which the trimmed term occurs. |
| WorkshopServices.SearchTermIsTrimmed | src/Workshop.Api/Services/WorkshopService.cs:36 | White space around the search term makes no difference to what matches. |
| WorkshopServices.WorkshopService.constructor | src/Workshop.Api/Services/WorkshopService.cs:10 | The service works on the context it is given. |
| WorkshopServices.WorkshopService.GetAll | src/Workshop.Api/Services/WorkshopService.cs:18-45 | Each result is the response of a stored workshop whose title matches the search. Every matching workshop is listed. No id is listed twice, so the list is a permutation of the matching rows. The list is ordered by Date. |
| WorkshopServices.WorkshopService.GetById | src/Workshop.Api/Services/WorkshopService.cs:48-55 | A response exactly when some row has that Id, and then it is that row's response. The store is not changed. |
| WorkshopServices.WorkshopService.Create | src/Workshop.Api/Services/WorkshopService.cs:57-78 | Exactly one row is added, under the fresh id, with trimmed Title and Description and with Date and MaxParticipants copied. Other rows and the Sessions table are unchanged. The result is that row's response. |
| WorkshopServices.WorkshopService.Update | src/Workshop.Api/Services/WorkshopService.cs:80-96 | null and no change when no row has the id. Otherwise only that row changes: trimmed Title and Description, Date and MaxParticipants copied, Id kept. The result is its response, and the Sessions table is unchanged. |
| WorkshopServices.WorkshopService.Delete | src/Workshop.Api/Services/WorkshopService.cs:98-110 | true exactly when a row had the id. The Workshops table loses exactly that key. On false, nothing changes. |
| SessionServices.MapToResponseDtoIsInjective | src/Workshop.Api/Services/SessionService.cs:103-110 | The session response copies every column: two rows give the same response exactly when they are equal. |
| SessionServices.SessionService.constructor | src/Workshop.Api/Services/SessionService.cs:9 | The service works on the context it is given. |
| SessionServices.SessionService.WorkshopExists | src/Workshop.Api/Services/SessionService.cs:100-101 | True exactly when some row of the Workshops table has that Id. |
| SessionServices.SessionService.GetAll | src/Workshop.Api/Services/SessionService.cs:17-31 | null exactly when the workshop does not exist. Otherwise the response of every session of that workshop and of no other, each once, ordered by StartTime. |
| SessionServices.SessionService.GetById | src/Workshop.Api/Services/SessionService.cs:33-41 | A response exactly when a session matches both WorkshopId and Id, without checking the workshop. Then it is that session's response. |
| SessionServices.SessionService.Create | src/Workshop.Api/Services/SessionService.cs:43-63 | null and no new row exactly when the workshop does not exist. Otherwise exactly one row is added under the fresh id, with the given WorkshopId, trimmed Title and the times copied. The result carries that WorkshopId. The Workshops table is unchanged. |
| SessionServices.SessionService.Update | src/Workshop.Api/Services/SessionService.cs:65-82 | null and no change exactly when no session matches the compound key. Otherwise only that row changes: trimmed Title, times copied, Id and WorkshopId kept. The Workshops table is unchanged. |
| SessionServices.SessionService.Delete | src/Workshop.Api/Services/SessionService.cs:84-98 | true exactly when a session matches the compound key. Then exactly that row is removed; otherwise nothing changes. The Workshops table is unchanged. |

## Left out

- The async and cancellation plumbing is not modelled. That covers `async`/`Task` and `CancellationToken`, and EF Core's change tracking (`AsNoTracking`, `SaveChangesAsync`). Each service method is one atomic step on the two tables.
- `Guid.NewGuid()` and `DateTime.UtcNow` are parameters. A fresh id is required to be absent from its table (`newId !in db.workshops`, `newId !in db.sessions`). DateTime Kind and time zones are not modelled; every DateTime is a tick count in UTC.
- WorkshopServices.MatchesSearch: it is plain, case-sensitive substring containment. SQL `LIKE` can be case-insensitive, depending on the database collation. `%` and `_` in the search term are also not escaped (WorkshopService.cs:37), so they act as wildcards in the database and as ordinary characters here.
- WorkshopServices.WorkshopService.Delete: it states nothing about the Sessions table when a workshop is removed. Cascade delete, orphaned rows or a rejected delete is decided by the database's foreign-key configuration, not by this method. The model's body leaves the Sessions table as it was.
- WorkshopServices.WorkshopService.Create, WorkshopServices.WorkshopService.Update, SessionServices.SessionService.Create and SessionServices.SessionService.Update: they require the payload's Title (and, for workshops, Description) to be non-null.
  - Where the C# code reaches `.Trim()` on a null, it throws NullReferenceException. That failure path is excluded, not modelled.
  - The `requires` also excludes a harmless case. In both updates and in `SessionService.Create`, a missing row or workshop returns null before any trimming (WorkshopService.cs:82-88; SessionService.cs:45-54 and 67-75), so a null there would do no harm.
  - Every call site meets the `requires`. These properties are declared non-nullable with an empty-string default, and they reach the services only after validation, which rejects null.
- WorkshopServices.WorkshopService.GetAll and SessionServices.SessionService.GetAll: the order among rows with equal Date (or StartTime) is left open, as the database leaves it.
- `SingleOrDefault` throwing on duplicate ids cannot arise: the tables are maps keyed by id, and `Valid()` ties each key to the row's Id.
- The composition of the validation pipeline follows ASP.NET Core MVC model validation. `Validator.TryValidateObject` differs in one way: a failing `[Required]` there suppresses the `[MinLength]` error of the same property. The accept/reject verdict is the same in both.
- SessionCreateDto.cs and SessionUpdateDto.cs are not part of this model. Both classes inherit SessionBaseDto unchanged (SessionBaseDto.cs:12-13), and the model names them as synonyms of the base payload.
- The controllers, authentication and JWT settings, and Program.cs are not part of this model. They cover the HTTP status mapping, token signing, and hosting, including the weather-forecast template endpoint in Program.cs.
