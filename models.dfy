/**
 * The records the handlers read and write (User, Business, Review) and the
 * database they live in. Each table is a sequence in insertion order, so a
 * query's `.first()` is the first match and `.all()` keeps that order.
 */
module Models {
  import opened Wrappers

  datatype User = User(id: int, username: string, email: string, hashedPassword: string)

  /** `aggregatedVibeScore` and `totalReviews` are cached values derived from the review table. */
  datatype Business = Business(
    id: int, name: string, category: string, location: string,
    aggregatedVibeScore: real, totalReviews: int)

  /** A review; the score, sentiment and keywords are nullable columns. */
  datatype Review = Review(
    id: int, userId: int, businessId: int, content: string,
    vibeScore: Option<real>, sentiment: Option<string>, keywords: Option<seq<string>>)

  /** Index of the first element of `s` satisfying `p`: what `.first()` finds. */
  function FirstIndex<T>(s: seq<T>, p: T -> bool): (r: Option<nat>)
    ensures r.Some? ==> r.value < |s| && p(s[r.value])
    ensures r.Some? ==> forall j :: 0 <= j < r.value ==> !p(s[j])
    ensures r.None? ==> forall j :: 0 <= j < |s| ==> !p(s[j])
  {
    if s == [] then None
    else if p(s[0]) then Some(0)
    else match FirstIndex(s[1..], p)
      case None => None
      case Some(i) => Some(i + 1)
  }

  /** The three properties in the contract of FirstIndex determine its result. */
  lemma FirstIndexCharacterized<T>(s: seq<T>, p: T -> bool, r: Option<nat>)
    requires r.Some? ==> r.value < |s| && p(s[r.value]) && forall j :: 0 <= j < r.value ==> !p(s[j])
    requires r.None? ==> forall j :: 0 <= j < |s| ==> !p(s[j])
    ensures FirstIndex(s, p) == r
  {
  }

  /** The first match in `s + t` is the first match in `s`, else the first in `t` shifted by `|s|`. */
  lemma FirstIndexAppend<T>(s: seq<T>, t: seq<T>, p: T -> bool)
    ensures FirstIndex(s + t, p) ==
      match FirstIndex(s, p)
      case Some(i) => Some(i)
      case None => (match FirstIndex(t, p) case None => None case Some(k) => Some(|s| + k))
  {
    var fs, ft := FirstIndex(s, p), FirstIndex(t, p);
    var r := match fs case Some(i) => Some(i) case None => (match ft case None => None case Some(k) => Some(|s| + k));
    if fs.None? && ft.Some? {
      forall j | 0 <= j < |s| + ft.value ensures !p((s + t)[j]) {
        if j >= |s| {
          assert (s + t)[j] == t[j - |s|];
        }
      }
    }
    if fs.None? && ft.None? {
      forall j | 0 <= j < |s + t| ensures !p((s + t)[j]) {
        if j >= |s| {
          assert (s + t)[j] == t[j - |s|];
        }
      }
    }
    FirstIndexCharacterized(s + t, p, r);
  }

  /** Lookups depend only on the values of the predicate along the sequence. */
  lemma FirstIndexCongruent<T>(s: seq<T>, t: seq<T>, p: T -> bool)
    requires |s| == |t|
    requires forall j :: 0 <= j < |s| ==> p(s[j]) == p(t[j])
    ensures FirstIndex(s, p) == FirstIndex(t, p)
  {
    FirstIndexCharacterized(t, p, FirstIndex(s, p));
  }

  function UserIndexByUsername(users: seq<User>, username: string): (r: Option<nat>)
    ensures r.Some? ==> r.value < |users| && users[r.value].username == username
    ensures r.Some? ==> forall j :: 0 <= j < r.value ==> users[j].username != username
    ensures r.None? ==> forall j :: 0 <= j < |users| ==> users[j].username != username
  {
    FirstIndex(users, (u: User) => u.username == username)
  }

  function UserIndexByEmail(users: seq<User>, email: string): (r: Option<nat>)
    ensures r.Some? ==> r.value < |users| && users[r.value].email == email
    ensures r.Some? ==> forall j :: 0 <= j < r.value ==> users[j].email != email
    ensures r.None? ==> forall j :: 0 <= j < |users| ==> users[j].email != email
  {
    FirstIndex(users, (u: User) => u.email == email)
  }

  function UserIndexById(users: seq<User>, id: int): (r: Option<nat>)
    ensures r.Some? ==> r.value < |users| && users[r.value].id == id
    ensures r.Some? ==> forall j :: 0 <= j < r.value ==> users[j].id != id
    ensures r.None? ==> forall j :: 0 <= j < |users| ==> users[j].id != id
  {
    FirstIndex(users, (u: User) => u.id == id)
  }

  function BusinessIndexById(businesses: seq<Business>, id: int): (r: Option<nat>)
    ensures r.Some? ==> r.value < |businesses| && businesses[r.value].id == id
    ensures r.Some? ==> forall j :: 0 <= j < r.value ==> businesses[j].id != id
    ensures r.None? ==> forall j :: 0 <= j < |businesses| ==> businesses[j].id != id
  {
    FirstIndex(businesses, (b: Business) => b.id == id)
  }

  /** A lookup by id finds nothing exactly when no business carries that id. */
  lemma BusinessIndexByIdNone(businesses: seq<Business>, id: int)
    ensures BusinessIndexById(businesses, id).None? <==> forall j :: 0 <= j < |businesses| ==> businesses[j].id != id
  {
    var r := BusinessIndexById(businesses, id);
    if r.Some? {
      assert businesses[r.value].id == id;
    }
  }

  /** Under unique ids, the business found by id is the only one carrying it. */
  lemma BusinessIndexByIdUnique(businesses: seq<Business>, id: int, j: int)
    requires UniqueBusinessIds(businesses)
    requires 0 <= j < |businesses| && businesses[j].id == id
    ensures BusinessIndexById(businesses, id) == Some(j)
  {
    FirstIndexCharacterized(businesses, (b: Business) => b.id == id, Some(j));
  }

  /** Replacing records without changing any id leaves every lookup by id where it was. */
  lemma BusinessIndexByIdKeepsIds(businesses: seq<Business>, updated: seq<Business>)
    requires |businesses| == |updated|
    requires forall j :: 0 <= j < |businesses| ==> businesses[j].id == updated[j].id
    ensures forall id :: BusinessIndexById(businesses, id) == BusinessIndexById(updated, id)
  {
    forall id ensures BusinessIndexById(businesses, id) == BusinessIndexById(updated, id) {
      FirstIndexCongruent(businesses, updated, (b: Business) => b.id == id);
    }
  }

  /** `query(Review).filter(Review.business_id == id).all()`, in table order. */
  function ReviewsOf(reviews: seq<Review>, businessId: int): (r: seq<Review>)
    ensures |r| <= |reviews|
    ensures forall x :: x in r <==> x in reviews && x.businessId == businessId
  {
    if reviews == [] then []
    else if reviews[0].businessId == businessId then [reviews[0]] + ReviewsOf(reviews[1..], businessId)
    else ReviewsOf(reviews[1..], businessId)
  }

  /** The filter distributes over concatenation, so it keeps the table order. */
  lemma {:induction false} ReviewsOfAppend(a: seq<Review>, b: seq<Review>, businessId: int)
    ensures ReviewsOf(a + b, businessId) == ReviewsOf(a, businessId) + ReviewsOf(b, businessId)
  {
    if a == [] {
      assert a + b == b;
    } else {
      assert (a + b)[0] == a[0];
      assert (a + b)[1..] == a[1..] + b;
      ReviewsOfAppend(a[1..], b, businessId);
      if a[0].businessId == businessId {
        assert ReviewsOf(a, businessId) == [a[0]] + ReviewsOf(a[1..], businessId);
      }
    }
  }

  ghost predicate UniqueUsers(users: seq<User>) {
    forall i, j :: 0 <= i < j < |users| ==>
      users[i].id != users[j].id && users[i].username != users[j].username && users[i].email != users[j].email
  }

  ghost predicate UniqueBusinessIds(businesses: seq<Business>) {
    forall i, j :: 0 <= i < j < |businesses| ==> businesses[i].id != businesses[j].id
  }

  ghost predicate UniqueReviewIds(reviews: seq<Review>) {
    forall i, j :: 0 <= i < j < |reviews| ==> reviews[i].id != reviews[j].id
  }

  /** Every review names an existing business and an existing author. */
  ghost predicate ReferencesResolve(users: seq<User>, businesses: seq<Business>, reviews: seq<Review>) {
    forall r :: r in reviews ==>
      BusinessIndexById(businesses, r.businessId).Some? && UserIndexById(users, r.userId).Some?
  }

  /** The integrity the handlers maintain over the three tables and the two key counters. */
  ghost predicate TablesValid(users: seq<User>, businesses: seq<Business>, reviews: seq<Review>,
                              nextUserId: int, nextReviewId: int)
  {
    && UniqueUsers(users)
    && (forall u :: u in users ==> u.id < nextUserId)
    && UniqueBusinessIds(businesses)
    && UniqueReviewIds(reviews)
    && (forall r :: r in reviews ==> r.id < nextReviewId)
    && ReferencesResolve(users, businesses, reviews)
  }

  /** Appending a review under the next key, naming an existing business and user, keeps the tables valid. */
  lemma AppendReviewKeepsValid(users: seq<User>, businesses: seq<Business>, reviews: seq<Review>,
                               nextUserId: int, nextReviewId: int, x: Review)
    requires TablesValid(users, businesses, reviews, nextUserId, nextReviewId)
    requires x.id == nextReviewId
    requires BusinessIndexById(businesses, x.businessId).Some? && UserIndexById(users, x.userId).Some?
    ensures TablesValid(users, businesses, reviews + [x], nextUserId, nextReviewId + 1)
  {
  }

  /** Appending a user keeps every earlier lookup by id where it was. */
  lemma UserIndexByIdAppend(users: seq<User>, u: User)
    ensures forall id :: UserIndexById(users, id).Some? ==> UserIndexById(users + [u], id) == UserIndexById(users, id)
  {
    forall id | UserIndexById(users, id).Some?
      ensures UserIndexById(users + [u], id) == UserIndexById(users, id)
    {
      FirstIndexAppend(users, [u], (x: User) => x.id == id);
    }
  }

  /** Appending a user under the next key, with a fresh username and email, keeps the tables valid. */
  lemma AppendUserKeepsValid(users: seq<User>, businesses: seq<Business>, reviews: seq<Review>,
                             nextUserId: int, nextReviewId: int, u: User)
    requires TablesValid(users, businesses, reviews, nextUserId, nextReviewId)
    requires u.id == nextUserId
    requires UserIndexByUsername(users, u.username).None? && UserIndexByEmail(users, u.email).None?
    ensures TablesValid(users + [u], businesses, reviews, nextUserId + 1, nextReviewId)
  {
    UserIndexByIdAppend(users, u);
  }

  /** The database: three tables and the next primary keys the user and review tables hand out. */
  class Database {
    var users: seq<User>
    var businesses: seq<Business>
    var reviews: seq<Review>
    var nextUserId: int
    var nextReviewId: int

    ghost predicate Valid()
      reads this
    {
      TablesValid(users, businesses, reviews, nextUserId, nextReviewId)
    }

    /** A database holding the seeded business catalogue and no users or reviews. */
    constructor (seed: seq<Business>)
      requires UniqueBusinessIds(seed)
      ensures Valid()
      ensures users == [] && businesses == seed && reviews == []
      ensures nextUserId == 1 && nextReviewId == 1
    {
      users, businesses, reviews := [], seed, [];
      nextUserId, nextReviewId := 1, 1;
    }

    /** Adds and commits a user stored under the next user key. */
    method AddUser(u: User)
      requires Valid()
      requires u.id == nextUserId
      requires UserIndexByUsername(users, u.username).None? && UserIndexByEmail(users, u.email).None?
      modifies this
      ensures Valid()
      ensures users == old(users) + [u] && nextUserId == old(nextUserId) + 1
      ensures businesses == old(businesses) && reviews == old(reviews) && nextReviewId == old(nextReviewId)
    {
      AppendUserKeepsValid(users, businesses, reviews, nextUserId, nextReviewId, u);
      users := users + [u];
      nextUserId := nextUserId + 1;
    }

    /** Adds and commits a review stored under the next review key. */
    method AddReview(x: Review)
      requires Valid()
      requires x.id == nextReviewId
      requires BusinessIndexById(businesses, x.businessId).Some? && UserIndexById(users, x.userId).Some?
      modifies this
      ensures Valid()
      ensures reviews == old(reviews) + [x] && nextReviewId == old(nextReviewId) + 1
      ensures users == old(users) && businesses == old(businesses) && nextUserId == old(nextUserId)
    {
      AppendReviewKeepsValid(users, businesses, reviews, nextUserId, nextReviewId, x);
      reviews := reviews + [x];
      nextReviewId := nextReviewId + 1;
    }
  }
}
