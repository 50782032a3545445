/**
 * The MySQL user repository: the `UserDB` row, its conversions from and to
 * `domain.User`, the snake-case column names derived from the row's fields,
 * and the decision each write operation takes on what the database reports.
 */
module MySQLUser {
  import opened Wrappers
  import opened DomainError
  import opened DomainUser
  import RepositoryError
  import opened SnakeCase

  // ---------------------------------------------------------------------------
  // The row

  /** `time.Time`, abstractly: the zero value or an instant read from the clock. */
  datatype Time = ZeroTime | Instant(unixNano: int)

  /** `UserDB`, one row of the `users` table; `followers` is the many-to-many association. */
  datatype UserDB = UserDB(
    id: uint64,
    email: string,
    username: string,
    name: string,
    profileImgURL: string,
    location: string,
    description: string,
    followers: seq<UserDB>,
    followersCount: int,
    followingCount: int,
    twitterName: string,
    facebookName: string,
    createdAt: Time,
    updatedAt: Time)
  {
    /** `User()`: the domain user the row describes; the URL and `IsMe` are left at their zero values. */
    function User(): (u: DomainUser.User)
      ensures u.url == "" && !u.isMe
      ensures u.(url := "", isMe := false) == DomainUser.User(id, email, username, name, "",
        profileImgURL, location, description, false, followersCount, followingCount, twitterName, facebookName)
    {
      DomainUser.User(id, email, username, name, "", profileImgURL, location, description, false,
        followersCount, followingCount, twitterName, facebookName)
    }

    /** `TableName()`. */
    function TableName(): string
    {
      "users"
    }
  }

  /** `UserDB{}`, the zero row. */
  const ZeroUserDB: UserDB := UserDB(0, "", "", "", "", "", "", [], 0, 0, "", "", ZeroTime, ZeroTime)

  /**
   * `NewUserDBWriter(user)`: the row inserted for a new user. The two readings
   * of the clock are the parameters `createdAt` and `updatedAt`.
   */
  function NewUserDBWriter(user: DomainUser.User, createdAt: Time, updatedAt: Time): (row: UserDB)
    ensures row.email == user.email && row.username == user.username && row.name == user.name
    ensures row.profileImgURL == user.profileImgURL && row.location == user.location
    ensures row.description == user.description
    ensures row.createdAt == createdAt && row.updatedAt == updatedAt
    ensures row.(email := "", username := "", name := "", profileImgURL := "", location := "",
      description := "", createdAt := ZeroTime, updatedAt := ZeroTime) == ZeroUserDB
  {
    ZeroUserDB.(email := user.email, username := user.username, name := user.name,
      profileImgURL := user.profileImgURL, location := user.location, description := user.description,
      followersCount := 0, followingCount := 0, twitterName := "", facebookName := "",
      createdAt := createdAt, updatedAt := updatedAt)
  }

  /**
   * `NewUserDBUpdater(userID, user)`: the attributes an update writes. The
   * identifier is not used; `updatedAt` is the reading of the clock.
   */
  function NewUserDBUpdater(userID: uint64, user: DomainUser.User, updatedAt: Time): (row: UserDB)
    ensures row.name == user.name && row.profileImgURL == user.profileImgURL
    ensures row.location == user.location && row.description == user.description
    ensures row.updatedAt == updatedAt
    ensures row.(name := "", profileImgURL := "", location := "", description := "",
      updatedAt := ZeroTime) == ZeroUserDB
  {
    ZeroUserDB.(name := user.name, profileImgURL := user.profileImgURL, location := user.location,
      description := user.description, updatedAt := updatedAt)
  }

  /** Writing a new user and reading it back keeps what the writer copies and zeroes the rest. */
  lemma WriterRoundTrip(user: DomainUser.User, createdAt: Time, updatedAt: Time)
    ensures NewUserDBWriter(user, createdAt, updatedAt).User()
      == user.(id := 0, url := "", isMe := false, followersCount := 0, followingCount := 0,
               twitterName := "", facebookName := "")
  {
  }

  /** The updater read back holds the four updated attributes and nothing else, whatever the identifier. */
  lemma UpdaterRoundTrip(userID: uint64, user: DomainUser.User, updatedAt: Time)
    ensures NewUserDBUpdater(userID, user, updatedAt).User()
      == ZeroUser.(name := user.name, profileImgURL := user.profileImgURL,
                   location := user.location, description := user.description)
  {
  }

  /** Two rows give the same user exactly when they agree on every column `User()` copies. */
  lemma UserLosesOnlyAssociationAndTimes(r1: UserDB, r2: UserDB)
    ensures r1.User() == r2.User()
      <==> r1.(followers := r2.followers, createdAt := r2.createdAt, updatedAt := r2.updatedAt) == r2
  {
    if r1.User() == r2.User() {
      assert r1.User().id == r2.User().id && r1.User().email == r2.User().email;
    }
  }

  // ---------------------------------------------------------------------------
  // The repository's write operations

  /** `DBErrorConverter`: the error to return for what the database reported, given a failure message. */
  type DBErrorConverter = (Option<ErrorValue>, string) -> Option<DomainError.AppError>

  /** What the gorm handle holds after a write: `db.Error` and `db.RowsAffected`. */
  datatype WriteResult = WriteResult(error: Option<ErrorValue>, rowsAffected: int)

  /** The test after each write: `err != nil || db.RowsAffected == 0`. */
  predicate Failed(res: WriteResult)
  {
    res.error.Some? || res.rowsAffected == 0
  }

  const InsertFailMessage: string := "userrepo: insert one user fail"
  const UpdateFailMessage: string := "userrepo: update one user fail"
  const DeleteFailMessage: string := "userrepo: delete one user fail"

  /** The error a write returns: the converter's answer when the write failed, nil when it did not. */
  function WriteError(errCvt: DBErrorConverter, res: WriteResult, failMessage: string): (r: Option<DomainError.AppError>)
    ensures !Failed(res) ==> r.None?
    ensures Failed(res) ==> r == errCvt(res.error, failMessage)
  {
    if Failed(res) then errCvt(res.error, failMessage) else None
  }

  /**
   * `UserMySQLRepository`. The gorm handle is not modelled: each write takes
   * what the database reported as a parameter, and `generateID()` is the
   * parameter `generatedID` of `InsertOne`.
   */
  datatype UserMySQLRepository = UserMySQLRepository(errCvt: DBErrorConverter)
  {
    /**
     * `InsertOne(user)`: the row from `NewUserDBWriter` with the generated
     * identifier is written; on success the user read back from that row
     * is returned, on failure the zero user and the converted error.
     */
    method InsertOne(user: DomainUser.User, generatedID: uint64, createdAt: Time, updatedAt: Time, res: WriteResult)
      returns (created: DomainUser.User, err: Option<DomainError.AppError>)
      ensures err == WriteError(errCvt, res, InsertFailMessage)
      ensures Failed(res) ==> created == ZeroUser
      ensures !Failed(res) ==> created == user.(id := generatedID, url := "", isMe := false,
        followersCount := 0, followingCount := 0, twitterName := "", facebookName := "")
    {
      var userDB := NewUserDBWriter(user, createdAt, updatedAt);
      userDB := userDB.(id := generatedID);
      if res.error.Some? || res.rowsAffected == 0 {
        var appErr := errCvt(res.error, InsertFailMessage);
        return ZeroUser, appErr;
      }
      return userDB.User(), None;
    }

    /**
     * `UpdateOne(userID, user)`: the attributes from `NewUserDBUpdater` are
     * written to the row `userID`; on success the user read back from the
     * updater is returned, which holds only those attributes.
     */
    method UpdateOne(userID: uint64, user: DomainUser.User, updatedAt: Time, res: WriteResult)
      returns (updated: DomainUser.User, err: Option<DomainError.AppError>)
      ensures err == WriteError(errCvt, res, UpdateFailMessage)
      ensures Failed(res) ==> updated == ZeroUser
      ensures !Failed(res) ==> updated == ZeroUser.(name := user.name, profileImgURL := user.profileImgURL,
        location := user.location, description := user.description)
    {
      var userDB := NewUserDBUpdater(userID, user, updatedAt);
      if res.error.Some? || res.rowsAffected == 0 {
        var appErr := errCvt(res.error, UpdateFailMessage);
        return ZeroUser, appErr;
      }
      UpdaterRoundTrip(userID, user, updatedAt);
      return userDB.User(), None;
    }

    /** `DeleteOne(userID)`: the row `userID` is deleted; the converted error when that failed. */
    method DeleteOne(userID: uint64, res: WriteResult) returns (err: Option<DomainError.AppError>)
      ensures err == WriteError(errCvt, res, DeleteFailMessage)
    {
      if res.error.Some? || res.rowsAffected == 0 {
        var appErr := errCvt(res.error, DeleteFailMessage);
        return appErr;
      }
      return None;
    }
  }

  /** The converter `NewUserMySQLRepository` installs: the MySQL classifier of the repository library. */
  function MySQLConverter(): (errCvt: DBErrorConverter)
    ensures forall dbErr, message :: errCvt(dbErr, message) == RepositoryError.NewMySQLErrCvt().AppError(dbErr, message)
  {
    (dbErr, message) => RepositoryError.NewMySQLErrCvt().AppError(dbErr, message)
  }

  /** `NewUserMySQLRepository(db, rand)`. */
  function NewUserMySQLRepository(): (repo: UserMySQLRepository)
    ensures forall dbErr, message :: repo.errCvt(dbErr, message) == RepositoryError.NewMySQLErrCvt().AppError(dbErr, message)
  {
    UserMySQLRepository(MySQLConverter())
  }

  /**
   * With the installed converter, a write that reports no error but changes
   * no row is a silent success: `InsertOne` and `UpdateOne` return the zero
   * user and nil, `DeleteOne` returns nil.
   */
  lemma NoRowsIsSilent(failMessage: string)
    ensures Failed(WriteResult(None, 0))
    ensures WriteError(NewUserMySQLRepository().errCvt, WriteResult(None, 0), failMessage) == None
  {
    RepositoryError.ConvertersPassNil(RepositoryError.NewMySQLErrCvt(), failMessage);
  }

  /**
   * With the installed converter, every error the database reports reaches
   * the caller, as a not-found error (404) or an internal error (500).
   */
  lemma ReportedErrorsAreNotFoundOrInternal(res: WriteResult, failMessage: string)
    requires res.error.Some?
    ensures var r := WriteError(NewUserMySQLRepository().errCvt, res, failMessage);
      r.Some? && (r.value.HTTPCode() == StatusNotFound || r.value.HTTPCode() == StatusInternalServerError)
  {
    var cvt := RepositoryError.NewMySQLErrCvt();
    var r := cvt.gorm.AppError(res.error, failMessage);
    assert r.Some?;
    if !cvt.gorm.CheckNoRecordError(res.error.value) {
      assert r.value.httpCode == ErrInternalServer.httpCode;
    }
  }

  /** With the intended classifier, inserting a duplicate key is reported as a bad parameter naming the key. */
  lemma IntendedDuplicateInsertIsBadParameter(s: string, code: string, entry: string, key: string)
    requires RepositoryError.DuplicateShape(s, code, entry, key) && '\'' !in key
    ensures var repo := UserMySQLRepository((e, m) => RepositoryError.NewMySQLErrCvt().IntendedAppError(e, m));
      WriteError(repo.errCvt, WriteResult(Some(Driver(s)), 0), InsertFailMessage)
        == Some(ErrBadParameters.WithMessage("conflict duplicate " + key))
  {
    RepositoryError.IntendedDuplicateClassified(RepositoryError.NewMySQLErrCvt(), s, code, entry, key, InsertFailMessage);
  }

  // ---------------------------------------------------------------------------
  // UserColumns

  /** What reflection reports of one field of `UserDB`: its name and whether its tag holds `MANY2MANY`. */
  datatype FieldDescriptor = FieldDescriptor(name: string, isMany2Many: bool)

  /** The fields of `UserDB`, in declaration order. */
  const UserDBFields: seq<FieldDescriptor> := [
    FieldDescriptor("ID", false),
    FieldDescriptor("Email", false),
    FieldDescriptor("Username", false),
    FieldDescriptor("Name", false),
    FieldDescriptor("ProfileImgURL", false),
    FieldDescriptor("Location", false),
    FieldDescriptor("Description", false),
    FieldDescriptor("Followers", true),
    FieldDescriptor("FollowersCount", false),
    FieldDescriptor("FollowingCount", false),
    FieldDescriptor("TwitterName", false),
    FieldDescriptor("FacebookName", false),
    FieldDescriptor("CreatedAt", false),
    FieldDescriptor("UpdatedAt", false)
  ]

  /** The column of one field: its snake-cased name, or none for a many-to-many field. */
  function Column(field: FieldDescriptor): (c: seq<string>)
    ensures field.isMany2Many <==> c == []
    ensures !field.isMany2Many ==> c == [ToSnakeCase(field.name)]
  {
    if field.isMany2Many then [] else [ToSnakeCase(field.name)]
  }

  /** The column names of the `users` table, in order. */
  const UserColumnNames: seq<string> := [
    "id", "email", "username", "name", "profile_img_url", "location", "description",
    "followers_count", "following_count", "twitter_name", "facebook_name", "created_at", "updated_at"
  ]

  /** The number of columns the first `k` fields of `UserDB` give: all but `Followers`. */
  function ColumnIndex(k: nat): nat
  {
    if k <= 7 then k else k - 1
  }

  /**
   * `UserColumns()`: a loop over the fields of `UserDB` that appends the
   * snake-cased name of each one except the many-to-many `Followers`.
   */
  method UserColumns() returns (columns: seq<string>)
    ensures columns == UserColumnNames
  {
    columns := [];
    for i := 0 to |UserDBFields|
      invariant columns == UserColumnNames[..ColumnIndex(i)]
    {
      var field := UserDBFields[i];
      UserColumnsStep(i);
      if field.isMany2Many {
        continue;
      }
      var column := ToSnakeCase(field.name);
      columns := columns + [column];
    }
  }

  /** One step of `UserColumns`: the next field adds its column, if any, to the names so far. */
  lemma UserColumnsStep(i: nat)
    requires i < |UserDBFields|
    ensures ColumnIndex(i + 1) <= |UserColumnNames|
    ensures UserColumnNames[..ColumnIndex(i + 1)] == UserColumnNames[..ColumnIndex(i)] + Column(UserDBFields[i])
  {
    UserDBFieldColumn(i);
    if i != 7 {
      PrefixExtend(UserColumnNames, ColumnIndex(i));
    }
  }

  /** Extending a prefix of the names by one keeps it a prefix. */
  lemma PrefixExtend(names: seq<string>, j: nat)
    requires j < |names|
    ensures names[..j + 1] == names[..j] + [names[j]]
  {
  }

  /** The column of each field of `UserDB`: `Followers` gives none, every other field the next name. */
  lemma UserDBFieldColumn(k: nat)
    requires k < |UserDBFields|
    ensures Column(UserDBFields[k]) == if k == 7 then [] else [UserColumnNames[ColumnIndex(k)]]
  {
    if k == 0 {
      IDColumn();
    } else if k == 1 {
      EmailColumn();
    } else if k == 2 {
      UsernameColumn();
    } else if k == 3 {
      NameColumn();
    } else if k == 4 {
      ProfileImgURLColumn();
    } else if k == 5 {
      LocationColumn();
    } else if k == 6 {
      DescriptionColumn();
    } else if k == 7 {
    } else if k == 8 {
      FollowersCountColumn();
    } else if k == 9 {
      FollowingCountColumn();
    } else if k == 10 {
      TwitterNameColumn();
    } else if k == 11 {
      FacebookNameColumn();
    } else if k == 12 {
      CreatedAtColumn();
    } else {
      UpdatedAtColumn();
    }
  }

  /** A field named by one capitalised word or one acronym: its column is the word lower-cased. */
  lemma WordColumn(f: FieldDescriptor, w: string, c: string)
    requires f.name == w && !f.isMany2Many && (IsCapitalised(w) || IsAcronym(w)) && ToLower(w) == c
    ensures Column(f) == [c]
  {
    if IsCapitalised(w) {
      SnakeCaseWord(w);
    } else {
      SnakeCaseAcronym(w);
    }
  }

  /** A field named by two capitalised words: its column joins them lower-cased with `_`. */
  lemma TwoWordsColumn(f: FieldDescriptor, w1: string, w2: string, c: string)
    requires f.name == w1 + w2 && !f.isMany2Many && IsCapitalised(w1) && IsCapitalised(w2)
    requires ToLower(w1) + "_" + ToLower(w2) == c
    ensures Column(f) == [c]
  {
    SnakeCaseTwoWords(w1, w2);
  }

  /** A field named by two capitalised words and an acronym, such as `ProfileImgURL`. */
  lemma TwoWordsAcronymColumn(f: FieldDescriptor, w1: string, w2: string, a: string, c: string)
    requires f.name == w1 + w2 + a && !f.isMany2Many && IsCapitalised(w1) && IsCapitalised(w2) && IsAcronym(a)
    requires ToLower(w1) + "_" + ToLower(w2) + "_" + ToLower(a) == c
    ensures Column(f) == [c]
  {
    SnakeCaseTwoWordsAcronym(w1, w2, a);
  }

  // The column of each field, one field per lemma, each through the general
  // snake-case lemma that fits the shape of its name.

  lemma IDColumn()
    ensures Column(UserDBFields[0]) == ["id"]
  {
    WordColumn(UserDBFields[0], "ID", "id");
  }

  lemma EmailColumn()
    ensures Column(UserDBFields[1]) == ["email"]
  {
    WordColumn(UserDBFields[1], "Email", "email");
  }

  lemma UsernameColumn()
    ensures Column(UserDBFields[2]) == ["username"]
  {
    WordColumn(UserDBFields[2], "Username", "username");
  }

  lemma NameColumn()
    ensures Column(UserDBFields[3]) == ["name"]
  {
    WordColumn(UserDBFields[3], "Name", "name");
  }

  lemma ProfileImgURLColumn()
    ensures Column(UserDBFields[4]) == ["profile_img_url"]
  {
    TwoWordsAcronymColumn(UserDBFields[4], "Profile", "Img", "URL", "profile_img_url");
  }

  lemma LocationColumn()
    ensures Column(UserDBFields[5]) == ["location"]
  {
    WordColumn(UserDBFields[5], "Location", "location");
  }

  lemma DescriptionColumn()
    ensures Column(UserDBFields[6]) == ["description"]
  {
    WordColumn(UserDBFields[6], "Description", "description");
  }

  lemma FollowersCountColumn()
    ensures Column(UserDBFields[8]) == ["followers_count"]
  {
    TwoWordsColumn(UserDBFields[8], "Followers", "Count", "followers_count");
  }

  lemma FollowingCountColumn()
    ensures Column(UserDBFields[9]) == ["following_count"]
  {
    TwoWordsColumn(UserDBFields[9], "Following", "Count", "following_count");
  }

  lemma TwitterNameColumn()
    ensures Column(UserDBFields[10]) == ["twitter_name"]
  {
    TwoWordsColumn(UserDBFields[10], "Twitter", "Name", "twitter_name");
  }

  lemma FacebookNameColumn()
    ensures Column(UserDBFields[11]) == ["facebook_name"]
  {
    TwoWordsColumn(UserDBFields[11], "Facebook", "Name", "facebook_name");
  }

  lemma CreatedAtColumn()
    ensures Column(UserDBFields[12]) == ["created_at"]
  {
    TwoWordsColumn(UserDBFields[12], "Created", "At", "created_at");
  }

  lemma UpdatedAtColumn()
    ensures Column(UserDBFields[13]) == ["updated_at"]
  {
    TwoWordsColumn(UserDBFields[13], "Updated", "At", "updated_at");
  }
}
