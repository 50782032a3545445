# golumnist-server: error classification and the user row mapping, in Dafny

This project models the part of golumnist-server that has decisions in it:

- **Application errors** (`domain/error.go`). An `AppError` holds an HTTP status, a numeric code, an optional cause and a client message. The model covers its accessors, the constructors `Wrap`, `Wrapf`, `WithMessage` and `WithMessagef`, `OK()`, and the catalog of five prototypes. Go's `error` interface is the datatype `ErrorValue`, whose values are a gorm sentinel, a driver error carrying its text, a `github.com/pkg/errors` wrapper, or an `AppError`. A nil error is `None`.
- **The classifier chain** (`lib/repository/error.go`).
  - `GormErrConverter.AppError` classifies gorm's sentinel errors by identity.
  - `MySQLErrConverter.AppError` runs the gorm classifier first, then two MySQL message patterns.
  - `getParams` builds the map of named groups.
  - The two regular expressions are hand-written matchers with Go's `regexp` semantics: leftmost match, greedy `.+`, `.` never matching a newline, and `$` meaning the end of the text.
- **The user row** (`user/repository/mysql/mysql_user.go`).
  - `UserDB` and its conversions `NewUserDBWriter`, `NewUserDBUpdater` and `User()`.
  - `ToSnakeCase`, written as its two rewrite passes followed by lower-casing.
  - `UserColumns`, a loop over a fixed list of field descriptors.
  - The decision `InsertOne`, `UpdateOne` and `DeleteOne` take on what the database reports.
- **The lazy profile URL** (`domain/user.go`). `User.GetURL` is a method of the class `UserRef` that updates the user in place.

Modules: `Wrappers` (Option), `DomainError`, `DomainUser`, `RepositoryError`, `SnakeCase` (the `ToSnakeCase` function of `mysql_user.go` and its lemmas), `MySQLUser`.

The source states its own intent for the MySQL classifier. The comments on the two patterns (`lib/repository/error.go:64-65` and `68-69`) say they catch MySQL's duplicate-entry and data-too-long errors. The messages built from them, `"conflict duplicate %v"` and `"data too long for %v field"` (lines 107 and 112), name a field. The model follows the code as written and reads that intent as follows:

- The MySQL classifier tries its two patterns only when the gorm classifier returns nil (lines 99-101). The gorm classifier never returns nil for a non-nil error, because its default branch wraps the error as an internal error. So every MySQL error becomes an internal error (Findings 1).
- Take MySQL's messages `"Error 1062: Duplicate entry 'alice@example.com' for key 'idx_email'"` and `"Error 1406: Data too long for column 'bio' at row 3"`. In this model's reading, the first should become a bad-parameter error naming the key `idx_email`, and the second one naming the column `bio`. As written, both become internal errors. Even if the branches were reached, the duplicate pattern's `Field` holds the entry, not the key (Findings 2). The data-length pattern does not match the second message at all (Findings 3). `RepositoryError.SamplesIntended` proves these outcomes for the corrected classifier.

A write that reports no error but changes no row is a silent success: the operation returns the zero user, or nothing, with a nil error. That is because the converter maps a nil error to nil. `MySQLUser.NoRowsIsSilent` states this.

## Model

| member | source | states |
|---|---|---|
| DomainError.AppError.Error | domain/error.go:28-33 | the text is the client message when there is no cause, and otherwise the message, ": " and the cause's text (`ErrorString`, which renders a pkg/errors wrapper as debug text, ": " and the inner text); the message is always a prefix, and the text equals it exactly when there is no cause |
| DomainError.AppError.HTTPCode | domain/error.go:48-53 | never 0: the stored status when it is set, 200 when it is zero |
| DomainError.OK | domain/error.go:36 | the success value reports status 200, code 0, no cause and the message "Success" |
| DomainError.AppError.Wrap | domain/error.go:58-70 | nil exactly when `err` is nil; otherwise the receiver with only its cause replaced by `err` annotated with the debug text |
| DomainError.AppError.Wrapf | domain/error.go:74-85 | the same error `Wrap` builds from the formatted debug text, so nil exactly for nil |
| DomainError.AppError.WithMessage | domain/error.go:88-95 | the receiver with ": " and the message appended to its client message, and status, code and cause kept |
| DomainError.AppError.WithMessagef | domain/error.go:99-106 | the same error `WithMessage` builds from the formatted text |
| DomainError.CatalogTable | domain/error.go:109-144 | the five prototypes have statuses 500/401/403/400/404 and codes 0x50/0x41/0x43/0x41/0x44, no cause, and render as their message; read through `HTTPCode`, `Code`, `Cause` and `Message`, whose bodies return the fields (domain/error.go:39-45) |
| DomainError.OnlyStatusSeparatesKinds | domain/error.go:124-136 | bad-parameters shares its code with authentication-fail and its message with operation-not-supported; two kinds have the same status exactly when they are the same kind |
| DomainError.WrapNil | domain/error.go:58-77 | `Wrap` and `Wrapf` of nil are nil for every receiver and debug text |
| DomainError.DerivationKeepsKind | domain/error.go:58-95 | wrapping and appending keep the status, the code and the prototype's message as a prefix |
| DomainError.WrapRendering | domain/error.go:28-70 | a wrapped error renders as message, debug text and the inner error's text, joined by ": ", and keeps its client message |
| DomainError.WithMessageTwice | domain/error.go:88-95 | appending `a` then `b` equals appending `a + ": " + b` |
| DomainUser.AfterGetURL | domain/user.go:21-26 | only the URL can change; afterwards it is non-empty; an empty URL becomes "/@" + username; a non-empty URL leaves the user unchanged |
| DomainUser.AfterGetURLIdempotent | domain/user.go:22-24 | applying the URL default twice equals applying it once |
| DomainUser.UserRef.GetURL | domain/user.go:21-26 | returns "/@" + username whatever the stored URL, and the new user is the old one with the URL default applied |
| DomainUser.GetURLTwice | domain/user.go:21-26 | two calls return the same path and leave the state one call leaves |
| RepositoryError.GormErrConverter.AppError | lib/repository/error.go:38-61 | nil exactly for nil. Not-found gives status 404, code 0x44, the fixed message and no cause. Transaction and SQL errors are wrapped as internal with the caller's message. Unaddressable is wrapped with the fixed hint. Anything else is wrapped with the "uncaught" hint. Only not-found loses its cause |
| RepositoryError.GormChecksPartitionSentinels | lib/repository/error.go:20-35 | the predicates `CheckNoRecordError`, `CheckTransactionError`, `CheckSQLError` and `CheckUnaddressedError` hold for pairwise disjoint sets of errors, and one of them holds exactly when the error is one of gorm's five sentinels |
| RepositoryError.LastSplit | lib/repository/error.go:66 | the position returned is a split and no later position up to the bound is |
| RepositoryError.SplitGreedy | lib/repository/error.go:66 | a result splits the text into two non-empty parts around the separator |
| RepositoryError.SplitGreedyMaximal | lib/repository/error.go:66 | the greedy first group is at least as long as any valid first part |
| RepositoryError.SplitGreedyExact | lib/repository/error.go:66 | when the second part has no quote, the split recovers exactly the two parts |
| RepositoryError.Pattern.SubexpNames | lib/repository/error.go:66-70 | four group names, the first empty, all distinct |
| RepositoryError.Leftmost | lib/repository/error.go:70 | the start returned matches, and no earlier start does |
| RepositoryError.FindStringSubmatch | lib/repository/error.go:120 | empty, or one entry per group name. For the anchored pattern it is empty exactly when the whole text does not match, and otherwise holds the text and the match's three captures. For the other pattern a result holds a suffix of the text at which the pattern matches, with that match's captures |
| RepositoryError.FindStringSubmatchLeftmost | lib/repository/error.go:120 | for the pattern without `^`, the result is empty exactly when no start matches, and otherwise its match starts at the leftmost start that matches |
| RepositoryError.MatchString | lib/repository/error.go:86-90 | `Match`: for the anchored pattern, true exactly when the whole text matches; for the other, false exactly when no start matches |
| RepositoryError.MySQLErrConverter.CheckDuplicateError | lib/repository/error.go:85-87 | true exactly when the duplicate matcher `DuplicateAt` accepts the whole error text |
| RepositoryError.MySQLErrConverter.CheckDataLengthError | lib/repository/error.go:89-91 | true exactly when the leftmost search finds a start of the error text where the data-length pattern matches |
| RepositoryError.DataLengthAt | lib/repository/error.go:70 | a match from the start of the text has the four-digit code of the text, an empty `Field` capture and a non-empty row |
| RepositoryError.IntendedDataLengthAt | lib/repository/error.go:70 | the corrected matcher's match has the text's code and non-empty column and row captures |
| RepositoryError.Params | lib/repository/error.go:119-129 | empty without a match; otherwise exactly the named groups as keys, each mapped to its capture |
| RepositoryError.GetParams | lib/repository/error.go:119-129 | the loop over group names builds exactly `Params` |
| RepositoryError.DuplicateMatchSound | lib/repository/error.go:66 | every match (of `MatchAt`, which runs the duplicate matcher `DuplicateAt` for both duplicate patterns) of the duplicate pattern is "Error " + four digits + ": Duplicate entry '" + X + "' for key '" + Y + "'" with X and Y non-empty and without newlines |
| RepositoryError.DuplicateMatchComplete | lib/repository/error.go:66 | every message of that shape matches, with its code, and the greedy first group is at least as long as X |
| RepositoryError.DuplicateMatchExact | lib/repository/error.go:66 | when the key has no quote, the captures are exactly the code, the entry and the key |
| RepositoryError.DataLengthMatchIff | lib/repository/error.go:70 | from the start of a text, the data-length pattern matches with captures (code, "", row) exactly when the column between the quotes is empty |
| RepositoryError.DataLengthFieldAlwaysEmpty | lib/repository/error.go:109-112 | the `Field` the data-length branch reads is "" for every text |
| RepositoryError.IntendedDataLengthExact | lib/repository/error.go:70 | the corrected pattern captures the code, the column and the row of a data-too-long message |
| RepositoryError.MySQLErrConverter.AppError | lib/repository/error.go:94-117 | as written, the result equals the gorm classifier's for every input |
| RepositoryError.MySQLErrConverter.IntendedAppError | lib/repository/error.go:94-117 | nil exactly for nil. Sentinels go to the gorm classifier. A duplicate message becomes bad-parameters naming the key, a data-too-long message bad-parameters naming the column, and anything else an internal error with the caller's message |
| RepositoryError.ConvertersPassNil | lib/repository/error.go:94-101 | both classifiers, and the corrected one, map nil to nil |
| RepositoryError.DriverErrorsClassifiedInternal | lib/repository/error.go:99-101 | as written, every driver error becomes the internal error wrapped with the "uncaught" hint, status 500 |
| RepositoryError.DuplicateFieldIsEntry | lib/repository/error.go:66 | as written, `Field` holds the duplicated entry and `Value` the key |
| RepositoryError.IntendedDuplicateFieldIsKey | lib/repository/error.go:104-107 | with the groups named the other way round, `Field` holds the key |
| RepositoryError.IntendedDuplicateClassified | lib/repository/error.go:104-107 | the corrected classifier maps a duplicate message to bad-parameters, status 400, with "conflict duplicate " + key |
| RepositoryError.DataLengthNotDuplicate | lib/repository/error.go:103-112 | a data-too-long message matches neither duplicate pattern, so the branch order does not hide it |
| RepositoryError.IntendedDataLengthClassified | lib/repository/error.go:109-112 | the corrected classifier maps a data-too-long message to bad-parameters, status 400, naming the column |
| RepositoryError.DuplicateSampleAsWritten | lib/repository/error.go:99-107 | as written, MySQL's duplicate-key message for `alice@example.com`/`idx_email` is an internal error, and `Field` would be the e-mail address |
| RepositoryError.DataTooLongSampleNotMatched | lib/repository/error.go:70 | as written, the data-length pattern matches nowhere in MySQL's message for column `bio` |
| RepositoryError.SamplesIntended | lib/repository/error.go:103-112 | the corrected classifier gives "conflict duplicate idx_email" and "data too long for bio field" |
| SnakeCase.LowerChar | user/repository/mysql/mysql_user.go:81 | an upper-case letter becomes the lower-case letter at the same distance from `a` as it is from `A`; every other character is kept; the result is never upper case |
| SnakeCase.ToLower | user/repository/mysql/mysql_user.go:81 | same length, no upper case, character by character |
| SnakeCase.LowerRun | user/repository/mysql/mysql_user.go:76 | the longest prefix of lower-case letters, as `[a-z]+` consumes it greedily |
| SnakeCase.ToSnakeCase | user/repository/mysql/mysql_user.go:75-82 | the output has no upper-case letter |
| SnakeCase.FirstCapPassInsertsUnderscores | user/repository/mysql/mysql_user.go:79 | the first rewrite pass, `FirstCapPass`, only inserts underscores |
| SnakeCase.AllCapPassInsertsUnderscores | user/repository/mysql/mysql_user.go:80 | the second rewrite pass, `AllCapPass`, only inserts underscores |
| SnakeCase.StripToLower | user/repository/mysql/mysql_user.go:81 | lower-casing commutes with deleting underscores |
| SnakeCase.ToSnakeCaseOnlyInsertsUnderscores | user/repository/mysql/mysql_user.go:76-81 | deleting every `_` from the output gives the input lower-cased with its `_` deleted |
| SnakeCase.FirstCapPassNoUpper | user/repository/mysql/mysql_user.go:79 | the first pass leaves text without upper case unchanged |
| SnakeCase.AllCapPassNoUpper | user/repository/mysql/mysql_user.go:80 | the second pass leaves text without upper case unchanged |
| SnakeCase.ToSnakeCaseIdentity | user/repository/mysql/mysql_user.go:76-81 | text without upper case is returned unchanged |
| SnakeCase.ToSnakeCaseIdempotent | user/repository/mysql/mysql_user.go:76-81 | applying it twice equals applying it once |
| SnakeCase.FirstCapPassSkip | user/repository/mysql/mysql_user.go:79 | a prefix with no upper case after its first character, not followed by upper case, passes through the first pass unchanged |
| SnakeCase.FirstCapPassNoLower | user/repository/mysql/mysql_user.go:79 | text without lower-case letters passes through the first pass unchanged |
| SnakeCase.FirstCapPassMatch | user/repository/mysql/mysql_user.go:79 | a character followed by a capitalised word gets an `_` between them, and the scan resumes after the word |
| SnakeCase.AllCapPassSkip | user/repository/mysql/mysql_user.go:80 | a prefix with no lower-case-or-digit/upper-case pair passes through the second pass unchanged |
| SnakeCase.ToLowerConcat | user/repository/mysql/mysql_user.go:81 | lower-casing distributes over concatenation |
| SnakeCase.SnakeCaseWord | user/repository/mysql/mysql_user.go:75-82 | a capitalised word such as `Email` becomes its lower-case form |
| SnakeCase.SnakeCaseAcronym | user/repository/mysql/mysql_user.go:75-82 | an all-capitals word such as `ID` becomes its lower-case form |
| SnakeCase.SnakeCaseTwoWords | user/repository/mysql/mysql_user.go:75-82 | two capitalised words such as `CreatedAt` become the lower-case words joined by `_` |
| SnakeCase.SnakeCaseTwoWordsAcronym | user/repository/mysql/mysql_user.go:75-82 | two capitalised words and an acronym such as `ProfileImgURL` become the three lower-case parts joined by `_` |
| SnakeCase.FirstCapPassTwoWords | user/repository/mysql/mysql_user.go:79 | the first pass puts one `_` between two capitalised words |
| SnakeCase.FirstCapPassTwoWordsAcronym | user/repository/mysql/mysql_user.go:79 | the first pass puts an `_` only between the two capitalised words |
| SnakeCase.AllCapPassTwoWordsAcronym | user/repository/mysql/mysql_user.go:80 | the second pass puts an `_` only before the acronym |
| MySQLUser.UserDB.User | user/repository/mysql/mysql_user.go:110-124 | the URL is "" and `IsMe` false; every other field of the user is the row's field of the same name |
| MySQLUser.NewUserDBWriter | user/repository/mysql/mysql_user.go:41-61 | copies e-mail, username, name, image, location and description, takes both timestamps from the clock, and leaves every other column at its zero value |
| MySQLUser.NewUserDBUpdater | user/repository/mysql/mysql_user.go:64-72 | copies name, image, location and description, takes the update time from the clock, and leaves every other column zero whatever the identifier |
| MySQLUser.WriterRoundTrip | user/repository/mysql/mysql_user.go:41-61 | reading back the written row gives the user with identifier 0, empty URL, `IsMe` false, zero counters and empty social names |
| MySQLUser.UpdaterRoundTrip | user/repository/mysql/mysql_user.go:64-72 | reading back the updater gives the zero user with the four updated attributes |
| MySQLUser.UserLosesOnlyAssociationAndTimes | user/repository/mysql/mysql_user.go:110-124 | two rows give the same user exactly when they differ only in followers and timestamps |
| MySQLUser.WriteError | user/repository/mysql/mysql_user.go:207-210 | nil when the write did not fail, that is (`Failed`, the test of line 207) it reported no error and changed a row; otherwise the converter's answer for the reported error and the failure message |
| MySQLUser.UserMySQLRepository.InsertOne | user/repository/mysql/mysql_user.go:198-212 | the error is `WriteError`. A failed write returns the zero user. A successful one returns the input user with the generated identifier, empty URL, `IsMe` false, zero counters and empty social names |
| MySQLUser.UserMySQLRepository.UpdateOne | user/repository/mysql/mysql_user.go:215-231 | the error is `WriteError`. A failed write returns the zero user. A successful one returns the zero user holding only the four updated attributes |
| MySQLUser.UserMySQLRepository.DeleteOne | user/repository/mysql/mysql_user.go:234-247 | the error is `WriteError` |
| MySQLUser.MySQLConverter | user/repository/mysql/mysql_user.go:149 | the converter is the MySQL classifier on every input |
| MySQLUser.NewUserMySQLRepository | user/repository/mysql/mysql_user.go:145-151 | the repository's converter is the MySQL classifier on every input |
| MySQLUser.NoRowsIsSilent | user/repository/mysql/mysql_user.go:207-210 | no error and zero rows count as a failure, yet the installed converter turns it into a nil error |
| MySQLUser.ReportedErrorsAreNotFoundOrInternal | user/repository/mysql/mysql_user.go:207-210 | with the installed converter, every error the database reports reaches the caller, with status 404 or 500 |
| MySQLUser.IntendedDuplicateInsertIsBadParameter | user/repository/mysql/mysql_user.go:207-210 | with the corrected classifier, a failed insert reporting a duplicate key returns bad-parameters naming the key |
| MySQLUser.Column | user/repository/mysql/mysql_user.go:93-99 | a field gives no column exactly when it is many-to-many, otherwise its snake-cased name |
| MySQLUser.UserColumns | user/repository/mysql/mysql_user.go:85-102 | the loop returns the 13 columns in declaration order, id through updated_at, without `Followers` |
| MySQLUser.UserDBFieldColumn | user/repository/mysql/mysql_user.go:23-37 | field k of `UserDB` gives the k-th column name, and `Followers` gives none |
| MySQLUser.WordColumn | user/repository/mysql/mysql_user.go:98 | a one-word field's column is the lower-cased word |
| MySQLUser.TwoWordsColumn | user/repository/mysql/mysql_user.go:98 | a two-word field's column is the lower-cased words joined by `_` |
| MySQLUser.TwoWordsAcronymColumn | user/repository/mysql/mysql_user.go:98 | a field of two words and an acronym gets the three lower-cased parts joined by `_` |
| MySQLUser.IDColumn | user/repository/mysql/mysql_user.go:24 | `ID` gives `id` |
| MySQLUser.EmailColumn | user/repository/mysql/mysql_user.go:25 | `Email` gives `email` |
| MySQLUser.UsernameColumn | user/repository/mysql/mysql_user.go:26 | `Username` gives `username` |
| MySQLUser.NameColumn | user/repository/mysql/mysql_user.go:27 | `Name` gives `name` |
| MySQLUser.ProfileImgURLColumn | user/repository/mysql/mysql_user.go:28 | `ProfileImgURL` gives `profile_img_url` |
| MySQLUser.LocationColumn | user/repository/mysql/mysql_user.go:29 | `Location` gives `location` |
| MySQLUser.DescriptionColumn | user/repository/mysql/mysql_user.go:30 | `Description` gives `description` |
| MySQLUser.FollowersCountColumn | user/repository/mysql/mysql_user.go:32 | `FollowersCount` gives `followers_count` |
| MySQLUser.FollowingCountColumn | user/repository/mysql/mysql_user.go:33 | `FollowingCount` gives `following_count` |
| MySQLUser.TwitterNameColumn | user/repository/mysql/mysql_user.go:34 | `TwitterName` gives `twitter_name` |
| MySQLUser.FacebookNameColumn | user/repository/mysql/mysql_user.go:35 | `FacebookName` gives `facebook_name` |
| MySQLUser.CreatedAtColumn | user/repository/mysql/mysql_user.go:36 | `CreatedAt` gives `created_at` |
| MySQLUser.UpdatedAtColumn | user/repository/mysql/mysql_user.go:37 | `UpdatedAt` gives `updated_at` |

## Left out

- Database I/O through gorm (`Where`, `First`, `Create`, `Model`, `Updates`, `Delete`, `Set`), and the meaning of gorm struct tags. Each write method takes a `WriteResult`, the `db.Error` and `db.RowsAffected` the database reported. `InsertOne` does not model gorm writing a value back into the row.
- `GetByID`, `GetByEmail`, `GetByUsername` (`mysql_user.go:158-195`): reads through gorm followed by `User()` and the converter. Both parts are modelled; the read itself is I/O. The `fmt.Println` debugging in `GetByEmail` is output only.
- `generateID` and the `UIntRandomizer` interface, and `lib/random/random.go`: randomness. The generated identifier is the parameter `generatedID` of `InsertOne`.
- `time.Now()`: the timestamps are parameters of `NewUserDBWriter`, `NewUserDBUpdater` and the write methods. `time.Time` is abstract.
- `fmt.Sprintf` in `Wrapf` and `WithMessagef`: these take the already formatted text. Only `%v` of a string is formatted in the classifiers.
- The stack trace `github.com/pkg/errors` records in `Wrap`: a cause is `Wrapped(debug, inner)`. Its text follows that library's `debug + ": " + inner` format.
- gorm's sentinel errors come from the gorm library, which is not part of this model. Their texts follow gorm version 1. They are compared by identity, as the source does.
- The general regular-expression engine. Only the two MySQL patterns and the two `ToSnakeCase` rewrite passes are modelled, as hand-written scans.
- SnakeCase.ToLower: Unicode case mapping. Only ASCII letters are mapped, and character classes such as `[A-Z]` are ASCII as in Go.
- Reflection in `UserColumns`: the fields of `UserDB` are the fixed list `UserDBFields`. A field whose tag contains `MANY2MANY` is a descriptor flagged `isMany2Many`.
- Integer widths: `uint64` is a range-restricted type. The counters and `RowsAffected` are unbounded integers, because nothing here does arithmetic on them.
- `TableName()` and `NewGormErrCvt(dialect)` are constant or record construction. They are modelled without a contract.
- The `UserService` and `UserRepository` interfaces (`domain/user.go:28-78`) and the `DBErrorConverter` interface: they have no logic. The converter is a function value held by the repository.
- MySQLUser.NewUserMySQLRepository installs the converter as written. The corrected classifier is used by `IntendedDuplicateInsertIsBadParameter`, which builds a repository around it.

## Findings

| source | as written | input that shows it | evidently intended | confidence | as-written member | corrected member |
|---|---|---|---|---|---|---|
| lib/repository/error.go:99-101 | the gorm classifier's default branch (lines 58-59) wraps every unrecognised error, so `appErr != nil` always holds and the duplicate and data-length branches at lines 103-116 are never reached | `Error 1062: Duplicate entry 'alice@example.com' for key 'idx_email'` from the driver becomes an internal error, status 500 | only gorm's recognised sentinels are answered by the gorm classifier; other errors go on to the MySQL patterns | high, not executed | RepositoryError.DriverErrorsClassifiedInternal | RepositoryError.MySQLErrConverter.IntendedAppError |
| lib/repository/error.go:66 | the group named `Field` captures the duplicated entry and `Value` captures the key | on the message above, `Field` is `alice@example.com`, so the client would read "conflict duplicate alice@example.com" | `Field` captures the key, giving "conflict duplicate idx_email" | high, not executed | RepositoryError.DuplicateFieldIsEntry | RepositoryError.IntendedDuplicateFieldIsKey |
| lib/repository/error.go:70 | the group `(?P<Field>)` is empty, so the pattern matches only a message with an empty column name, and `Field` is always "" | `Error 1406: Data too long for column 'bio' at row 3` is not matched anywhere | `(?P<Field>.+)`, capturing the column name | high, not executed | RepositoryError.DataTooLongSampleNotMatched | RepositoryError.IntendedDataLengthClassified |
