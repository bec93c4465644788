/** The tweet schema and its document methods (src/features/tweets/Model.ts). */
module TweetModel {
  import opened Common
  import opened Strings

  /** The fields a tweet is created from; any of them may be missing. */
  datatype TweetFields = TweetFields(
    text: Option<string>,
    author: Option<Id>,
    date: Option<int>,
    time: Option<TimeFields>,
    likes: Option<int>,
    thread: Option<bool>)

  /** A tweet document. */
  datatype Tweet = Tweet(id: Id, text: string, author: Id, date: int, time: Time, likes: int, thread: bool)

  /** The declared minimum of `likes`. */
  const MinLikes: int := 0

  /** What the schema promises of a validated tweet: a non-empty text, trimmed
      and lower-case, an ObjectId author, a time of day in range and no fewer
      than zero likes. */
  predicate WellFormed(t: Tweet) {
    t.text != [] && Normal(t.text) && IsObjectId(t.author) && TimeOfDay(t.time) && t.likes >= MinLikes
  }

  /** The schema's requirements: text, author (castable to an ObjectId), date
      and the three parts of the time present and in range, and `likes`, when
      given, at least zero. */
  predicate Admissible(f: TweetFields) {
    && f.text.Some? && Normalize(f.text.value) != []
    && f.author.Some? && IsObjectId(f.author.value) && f.date.Some?
    && AdmissibleTime(f.time)
    && (f.likes.None? || f.likes.value >= MinLikes)
  }

  /** `Tweet.create(fields)`: apply the setters, fill the defaults (no likes,
      not a thread), then validate. */
  function Create(f: TweetFields, id: Id): (r: Result<Tweet, StoreError>)
    ensures r.Ok? <==> Admissible(f)
    ensures r.Ok? ==> WellFormed(r.value) && r.value.id == id
    ensures r.Ok? ==> && r.value.text == Normalize(f.text.value)
                      && Some(r.value.author) == f.author && Some(r.value.date) == f.date
    ensures r.Ok? ==> r.value.likes == (if f.likes.Some? then f.likes.value else 0)
    ensures r.Ok? ==> r.value.thread == (f.thread == Some(true))
    ensures r.Ok? ==> CastTime(f.time) == Ok(r.value.time)
  {
    var text := if f.text.Some? then Normalize(f.text.value) else "";
    var likes := if f.likes.Some? then f.likes.value else 0;
    var thread := if f.thread.Some? then f.thread.value else false;
    if text == [] then Err(ValidationError("text"))
    else if f.author.None? || !IsObjectId(f.author.value) then Err(ValidationError("author"))
    else if f.date.None? then Err(ValidationError("date"))
    else match CastTime(f.time)
      case Err(e) => Err(e)
      case Ok(t) =>
        if likes < MinLikes then Err(ValidationError("likes"))
        else Ok(Tweet(id, text, f.author.value, f.date.value, t, likes, thread))
  }

  /** A tweet created without `likes` and `thread` has no likes and is not a thread. */
  lemma NewTweetDefaults(f: TweetFields, id: Id)
    requires f.likes.None? && f.thread.None? && Create(f, id).Ok?
    ensures Create(f, id).value.likes == 0 && !Create(f, id).value.thread
  {
  }

  /** The tweet after `likeTweet`. */
  function Liked(t: Tweet): (r: Tweet)
    ensures r.likes == t.likes + 1
    ensures r.(likes := t.likes) == t
  {
    t.(likes := t.likes + 1)
  }

  /** The tweet after `unlikeTweet`. */
  function Unliked(t: Tweet): (r: Tweet)
    ensures r.likes == t.likes - 1
    ensures r.(likes := t.likes) == t
  {
    t.(likes := t.likes - 1)
  }

  /** Liking and then unliking, in either order, gives back the tweet. */
  lemma LikeUnlikeRestores(t: Tweet)
    ensures Unliked(Liked(t)) == t && Liked(Unliked(t)) == t
  {
  }

  /** A like keeps every promise of the schema. */
  lemma LikedWellFormed(t: Tweet)
    requires WellFormed(t)
    ensures WellFormed(Liked(t))
  {
  }

  /** The counter is saved without validation, so an unlike keeps the schema's
      promises exactly when there was a like to take back: from zero likes it
      goes below the declared minimum. */
  lemma UnlikedWellFormed(t: Tweet)
    requires WellFormed(t)
    ensures WellFormed(Unliked(t)) <==> t.likes >= MinLikes + 1
    ensures t.likes == 0 ==> Unliked(t).likes == -1
  {
  }

  /** The keys of a tweet's JSON form: its paths, the timestamps and the
      `id` virtual; the version key is left out. */
  const TweetKeys: set<string> := {"_id", "id", "text", "author", "date", "time", "likes", "thread", "createdAt", "updatedAt"}

  /** `toJSON` asks `removeProps` to drop `threads`, a key the schema does not
      have, so the `thread` flag is still shown. */
  lemma ToJsonShowsThread()
    ensures RemoveProps(TweetKeys, ["threads"]) == TweetKeys
    ensures "thread" in RemoveProps(TweetKeys, ["threads"])
  {
  }

  /** A loaded tweet document. `saved` is the copy in the collection, written
      by `save`. */
  class TweetDocument {
    const id: Id
    const text: string
    const author: Id
    const date: int
    const time: Time
    const thread: bool
    var likes: int
    var saved: Tweet

    function Value(): (t: Tweet)
      reads this
      ensures t.id == id && t.likes == likes
    {
      Tweet(id, text, author, date, time, likes, thread)
    }

    /** A document loaded from the collection. */
    constructor (t: Tweet)
      ensures Value() == t && saved == t
    {
      id, text, author, date, time, thread := t.id, t.text, t.author, t.date, t.time, t.thread;
      likes := t.likes;
      saved := t;
    }

    /** `likeTweet`: one more like, saved without validation. */
    method LikeTweet()
      modifies this`likes, this`saved
      ensures Value() == Liked(old(Value()))
      ensures saved == Value()
    {
      likes := likes + 1;
      saved := Value();
    }

    /** `unlikeTweet`: one like fewer, saved without validation, so nothing
      stops the count at zero. */
    method UnlikeTweet()
      modifies this`likes, this`saved
      ensures Value() == Unliked(old(Value()))
      ensures saved == Value()
    {
      likes := likes - 1;
      saved := Value();
    }
  }

  /** A like followed by an unlike on a freshly loaded document saves the
      tweet as it was loaded. */
  method LikeThenUnlike(t: Tweet) returns (r: Tweet)
    ensures r == t
  {
    var doc := new TweetDocument(t);
    doc.LikeTweet();
    doc.UnlikeTweet();
    r := doc.saved;
  }

  /** Unliking a tweet nobody has liked saves minus one like: a tweet the
      schema would refuse. */
  method UnlikeFromZero(t: Tweet) returns (r: Tweet)
    requires WellFormed(t) && t.likes == 0
    ensures r.likes == -1 && !WellFormed(r)
    ensures r.(likes := 0) == t
  {
    var doc := new TweetDocument(t);
    doc.UnlikeTweet();
    r := doc.saved;
  }
}
