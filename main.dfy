/**
 * The request handlers of app/main.py as operations on the database:
 * registration, login, listing and retrieving businesses, submitting a
 * review (insert, then refresh the business's cached metrics) and listing
 * a business's reviews. An HTTPException is a `Failure(HttpError(...))`.
 */
module Main {
  import opened Wrappers
  import opened Models
  import opened Auth
  import opened Utils

  datatype HttpError = HttpError(statusCode: int, detail: string)

  /** The body `authenticate_user` answers with on success. */
  datatype LoginResponse = LoginResponse(message: string, user: User)

  const AuthSuccessMessage: string := "Authentication successful"
  const UsernameTaken: HttpError := HttpError(400, "This username is already taken")
  const EmailTaken: HttpError := HttpError(400, "This email is already registered")
  const InvalidCredentials: HttpError := HttpError(401, "Incorrect username or password")

  function DigitChar(d: nat): char
    requires d < 10
  {
    ('0' as int + d) as char
  }

  predicate IsDigits(s: string) {
    forall k :: 0 <= k < |s| ==> '0' <= s[k] <= '9'
  }

  /** The number a string of decimal digits denotes, most significant digit first. */
  function DigitsValue(s: string): nat
    requires IsDigits(s)
  {
    if s == [] then 0 else 10 * DigitsValue(s[..|s| - 1]) + (s[|s| - 1] as int - '0' as int)
  }

  /** The decimal rendering of a natural number: non-empty digits that denote it. */
  function NatToString(n: nat): (s: string)
    ensures |s| >= 1 && IsDigits(s)
    ensures DigitsValue(s) == n
    ensures s[0] == '0' ==> n == 0
  {
    if n < 10 then [DigitChar(n)]
    else
      var front := NatToString(n / 10);
      var s := front + [DigitChar(n % 10)];
      assert s[..|s| - 1] == front;
      s
  }

  /** Python's `str()` of an integer, as the f-strings of the error details render it. */
  function IntToString(i: int): (s: string)
    ensures |s| >= 1
    ensures i >= 0 ==> IsDigits(s) && DigitsValue(s) == i
    ensures i < 0 ==> s[0] == '-' && IsDigits(s[1..]) && DigitsValue(s[1..]) == -i
    ensures i >= 0 ==> (s[0] == '0' ==> i == 0)
    ensures i < 0 ==> |s| >= 2 && s[1] != '0'
  {
    if i < 0 then "-" + NatToString(-i) else NatToString(i)
  }

  function BusinessNotFound(id: int): HttpError {
    HttpError(404, "Business with ID " + IntToString(id) + " not found")
  }

  function BusinessDoesNotExist(id: int): HttpError {
    HttpError(404, "Business with ID " + IntToString(id) + " does not exist")
  }

  function UserDoesNotExist(id: int): HttpError {
    HttpError(404, "User with ID " + IntToString(id) + " does not exist")
  }

  /** What logging in with `username` and `password` against the user table answers. */
  function LoginResult(users: seq<User>, username: string, password: string, sha256: Hasher)
    : (r: Result<LoginResponse, HttpError>)
    ensures r.Failure? ==> r.error == InvalidCredentials
    ensures r.Success? <==>
              UserIndexByUsername(users, username).Some? &&
              VerifyPassword(password, Some(users[UserIndexByUsername(users, username).value].hashedPassword), sha256)
    ensures r.Success? ==>
              r.value.message == AuthSuccessMessage && r.value.user in users && r.value.user.username == username
  {
    match UserIndexByUsername(users, username)
    case None => Failure(InvalidCredentials)
    case Some(i) =>
      if VerifyPassword(password, Some(users[i].hashedPassword), sha256)
      then Success(LoginResponse(AuthSuccessMessage, users[i]))
      else Failure(InvalidCredentials)
  }

  /** A user appended under a fresh username logs in with the password that was hashed for them. */
  lemma LoginAfterRegister(users: seq<User>, u: User, password: string, saltBytes: seq<Byte>, sha256: Hasher)
    requires UserIndexByUsername(users, u.username).None?
    requires |saltBytes| == 16 && DigestsAreHex(sha256)
    requires u.hashedPassword == HashPassword(password, saltBytes, sha256)
    ensures LoginResult(users + [u], u.username, password, sha256) == Success(LoginResponse(AuthSuccessMessage, u))
  {
    var p := (x: User) => x.username == u.username;
    FirstIndexAppend(users, [u], p);
    assert FirstIndex([u], p) == Some(0);
    assert UserIndexByUsername(users + [u], u.username) == Some(|users|);
    HashVerifyRoundTrip(password, saltBytes, sha256);
  }

  /** `register_new_user`: username check, then email check, then insert with the hashed password. */
  method RegisterNewUser(db: Database, username: string, email: string, password: string,
                         saltBytes: seq<Byte>, sha256: Hasher)
    returns (r: Result<User, HttpError>)
    requires db.Valid()
    requires |saltBytes| == 16
    modifies db
    ensures db.Valid()
    ensures UserIndexByUsername(old(db.users), username).Some? ==>
              r == Failure(UsernameTaken) && unchanged(db)
    ensures UserIndexByUsername(old(db.users), username).None? && UserIndexByEmail(old(db.users), email).Some? ==>
              r == Failure(EmailTaken) && unchanged(db)
    ensures r.Success? <==>
              UserIndexByUsername(old(db.users), username).None? && UserIndexByEmail(old(db.users), email).None?
    ensures r.Success? ==>
              && r.value == User(old(db.nextUserId), username, email, HashPassword(password, saltBytes, sha256))
              && db.users == old(db.users) + [r.value]
              && db.nextUserId == old(db.nextUserId) + 1
              && db.businesses == old(db.businesses) && db.reviews == old(db.reviews)
              && db.nextReviewId == old(db.nextReviewId)
    ensures r.Success? && DigestsAreHex(sha256) ==>
              LoginResult(db.users, username, password, sha256) == Success(LoginResponse(AuthSuccessMessage, r.value))
  {
    if UserIndexByUsername(db.users, username).Some? {
      return Failure(UsernameTaken);
    }
    if UserIndexByEmail(db.users, email).Some? {
      return Failure(EmailTaken);
    }
    var passwordHash := HashPassword(password, saltBytes, sha256);
    var user := User(db.nextUserId, username, email, passwordHash);
    if DigestsAreHex(sha256) {
      LoginAfterRegister(db.users, user, password, saltBytes, sha256);
    }
    db.AddUser(user);
    r := Success(user);
  }

  /** `authenticate_user`: one and the same 401 for an unknown username and a wrong password. */
  method AuthenticateUser(db: Database, username: string, password: string, sha256: Hasher)
    returns (r: Result<LoginResponse, HttpError>)
    ensures r == LoginResult(db.users, username, password, sha256)
  {
    var index := UserIndexByUsername(db.users, username);
    if index.None? {
      return Failure(InvalidCredentials);
    }
    var account := db.users[index.value];
    var passwordValid := VerifyPassword(password, Some(account.hashedPassword), sha256);
    if !passwordValid {
      return Failure(InvalidCredentials);
    }
    r := Success(LoginResponse(AuthSuccessMessage, account));
  }

  /** `list_businesses`: the whole business table, in table order. */
  method ListBusinesses(db: Database) returns (businesses: seq<Business>)
    ensures businesses == db.businesses
  {
    businesses := db.businesses;
  }

  /** `retrieve_business`: the business with that id, or 404 "not found". */
  method RetrieveBusiness(db: Database, businessId: int) returns (r: Result<Business, HttpError>)
    ensures r.Failure? <==> forall j :: 0 <= j < |db.businesses| ==> db.businesses[j].id != businessId
    ensures r.Failure? ==> r.error == BusinessNotFound(businessId)
    ensures r.Success? ==> r.value in db.businesses && r.value.id == businessId
  {
    BusinessIndexByIdNone(db.businesses, businessId);
    var index := BusinessIndexById(db.businesses, businessId);
    if index.None? {
      return Failure(BusinessNotFound(businessId));
    }
    r := Success(db.businesses[index.value]);
  }

  /** `fetch_business_reviews`: 404 for a missing business, else exactly its reviews in table order. */
  method FetchBusinessReviews(db: Database, businessId: int) returns (r: Result<seq<Review>, HttpError>)
    ensures r.Failure? <==> forall j :: 0 <= j < |db.businesses| ==> db.businesses[j].id != businessId
    ensures r.Failure? ==> r.error == BusinessDoesNotExist(businessId)
    ensures r.Success? ==> r.value == ReviewsOf(db.reviews, businessId)
    ensures r.Success? ==> forall x :: x in r.value <==> x in db.reviews && x.businessId == businessId
  {
    BusinessIndexByIdNone(db.businesses, businessId);
    if BusinessIndexById(db.businesses, businessId).None? {
      return Failure(BusinessDoesNotExist(businessId));
    }
    var reviewList := ReviewsOf(db.reviews, businessId);
    r := Success(reviewList);
  }

  /**
   * `submit_review`: 404 if the business, then the user, is missing;
   * otherwise store one review carrying the placeholder analysis and
   * refresh the business's cached metrics.
   */
  method SubmitReview(db: Database, businessId: int, content: string, userId: int)
    returns (r: Result<Review, HttpError>)
    requires db.Valid()
    modifies db
    ensures db.Valid()
    ensures BusinessIndexById(old(db.businesses), businessId).None? ==>
              r == Failure(BusinessDoesNotExist(businessId)) && unchanged(db)
    ensures BusinessIndexById(old(db.businesses), businessId).Some? && UserIndexById(old(db.users), userId).None? ==>
              r == Failure(UserDoesNotExist(userId)) && unchanged(db)
    ensures r.Success? <==>
              BusinessIndexById(old(db.businesses), businessId).Some? && UserIndexById(old(db.users), userId).Some?
    ensures r.Success? ==>
              && r.value == Review(old(db.nextReviewId), userId, businessId, content, None, None, None)
              && db.reviews == old(db.reviews) + [r.value]
              && db.nextReviewId == old(db.nextReviewId) + 1
              && db.users == old(db.users) && db.nextUserId == old(db.nextUserId)
              && db.businesses == RefreshedBusinesses(old(db.businesses), db.reviews, businessId)
    ensures old(MetricsAgree(db.businesses, db.reviews)) ==> MetricsAgree(db.businesses, db.reviews)
    ensures old(AllUnscored(db.reviews)) ==> AllUnscored(db.reviews)
  {
    if BusinessIndexById(db.businesses, businessId).None? {
      return Failure(BusinessDoesNotExist(businessId));
    }
    if UserIndexById(db.users, userId).None? {
      return Failure(UserDoesNotExist(userId));
    }
    var analysis := AnalyzeReviewSentiment(content);
    var review := Review(db.nextReviewId, userId, businessId, content,
                         analysis.vibeScore, analysis.sentiment, analysis.keywords);
    if MetricsAgree(db.businesses, db.reviews) {
      InsertThenRefreshAgrees(db.businesses, db.reviews, review);
    }
    if AllUnscored(db.reviews) {
      AppendUnscored(db.reviews, review);
    }
    db.AddReview(review);
    RefreshBusinessMetrics(db, businessId);
    r := Success(review);
  }
}
