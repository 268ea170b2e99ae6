/**
 * The feed's records, what local storage holds, and the pure projections the
 * feed operations are specified with: `persistFeed` keeps the persistent
 * records, `loadPersisted` reads them back, `loadInitialFeed` falls back to
 * the learning samples.
 */
module Feed {
  import opened Wrappers

  /** One feed entry: `{src, user, caption, persistent}`. */
  datatype Post = Post(src: string, user: string, caption: string, persistent: bool)

  /**
   * A local-storage value, with JSON abstracted away: `Records` is the text of
   * a JSON array of records, `Text` a plain string (as the session key holds),
   * `Corrupt` a text that `JSON.parse` rejects. Under the feed key, `Text`
   * stands only for a text that is not a JSON array (the empty text, say);
   * a JSON array of records is always `Records`.
   */
  datatype StoredValue = Records(posts: seq<Post>) | Text(s: string) | Corrupt

  type Store = map<string, StoredValue>

  const FeedKey: string := "snapbridge_feed"
  const UserKey: string := "snapbridge_user"

  const BigBuckBunny: Post :=
    Post("https://commondatastorage.googleapis.com/gtv-videos-bucket/sample/BigBuckBunny.mp4",
         "Instructor A", "Intro to Animation \U{2014} Basics (sample)", true)
  const Flower: Post :=
    Post("https://interactive-examples.mdn.mozilla.net/media/cc0-videos/flower.webm",
         "Science 101", "Plant cells & photosynthesis (sample)", true)
  const ElephantsDream: Post :=
    Post("https://commondatastorage.googleapis.com/gtv-videos-bucket/sample/ElephantsDream.mp4",
         "Instructor B", "Computer Graphics Overview (sample)", true)

  /** `LEARNING_SAMPLES`: the three public sample videos, in this order, all persistent. */
  function LearningSamples(): (r: seq<Post>)
    ensures |r| == 3 && AllPersistent(r)
    ensures r[0].user == "Instructor A" && r[1].user == "Science 101" && r[2].user == "Instructor B"
  {
    [BigBuckBunny, Flower, ElephantsDream]
  }

  predicate AllPersistent(feed: seq<Post>) {
    forall i :: 0 <= i < |feed| ==> feed[i].persistent
  }

  /** `feed.filter(f => f.persistent)`, the part of a feed that `persistFeed` writes. */
  function PersistentOnly(feed: seq<Post>): (r: seq<Post>)
    ensures |r| <= |feed|
    ensures AllPersistent(r)
    ensures forall p :: p in r <==> p in feed && p.persistent
  {
    if feed == [] then []
    else if feed[0].persistent then [feed[0]] + PersistentOnly(feed[1..])
    else PersistentOnly(feed[1..])
  }

  /**
   * `loadPersisted()` on a store: the stored record list; a missing key, an
   * empty text and an unparseable value all read as `[]`.
   */
  function ReadFeed(store: Store): (r: seq<Post>)
    ensures (FeedKey !in store || !store[FeedKey].Records?) ==> r == []
    ensures r != [] ==> FeedKey in store && store[FeedKey] == Records(r)
  {
    if FeedKey in store && store[FeedKey].Records? then store[FeedKey].posts else []
  }

  /** The feed `loadInitialFeed` builds from a store: what is persisted, or the samples when that is empty. */
  function InitialFeed(store: Store): (r: seq<Post>)
    ensures r != []
    ensures ReadFeed(store) != [] ==> r == ReadFeed(store)
    ensures ReadFeed(store) == [] ==> r == LearningSamples()
  {
    var persisted := ReadFeed(store);
    if persisted == [] then LearningSamples() else persisted
  }

  /** `localStorage.getItem('snapbridge_user') || null`: a missing or empty name is the guest. */
  function StoredUser(store: Store): (r: Option<string>)
    ensures r != Some("")
    ensures r.Some? ==> UserKey in store && store[UserKey] == Text(r.value)
    ensures r.None? ==> UserKey !in store || !store[UserKey].Text? || store[UserKey] == Text("")
  {
    if UserKey in store && store[UserKey].Text? && store[UserKey].s != "" then Some(store[UserKey].s) else None
  }

  /** Storage holds no transient record. */
  predicate StoredOnlyPersistent(store: Store) {
    AllPersistent(ReadFeed(store))
  }

  /** What a reload would read is exactly the persistent part of the in-memory feed. */
  predicate InSync(feed: seq<Post>, store: Store) {
    ReadFeed(store) == PersistentOnly(feed)
  }

  /** Filtering a concatenation filters each part, keeping the order. */
  lemma {:induction false} PersistentOnlyConcat(a: seq<Post>, b: seq<Post>)
    ensures PersistentOnly(a + b) == PersistentOnly(a) + PersistentOnly(b)
  {
    if a == [] {
      assert a + b == b;
    } else {
      assert (a + b)[0] == a[0] && (a + b)[1..] == a[1..] + b;
      PersistentOnlyConcat(a[1..], b);
    }
  }

  /** A feed of persistent records only is written out whole, in order. */
  lemma {:induction false} AllPersistentKept(feed: seq<Post>)
    requires AllPersistent(feed)
    ensures PersistentOnly(feed) == feed
  {
    if feed != [] {
      AllPersistentKept(feed[1..]);
    }
  }

  /** A feed of transient records only writes nothing. */
  lemma {:induction false} AllTransientWritesNothing(feed: seq<Post>)
    requires forall i :: 0 <= i < |feed| ==> !feed[i].persistent
    ensures PersistentOnly(feed) == []
  {
    if feed != [] {
      AllTransientWritesNothing(feed[1..]);
    }
  }

  /** Filtering twice is filtering once. */
  lemma PersistentOnlyIdempotent(feed: seq<Post>)
    ensures PersistentOnly(PersistentOnly(feed)) == PersistentOnly(feed)
  {
    AllPersistentKept(PersistentOnly(feed));
  }

  /** The samples survive `persistFeed` untouched. */
  lemma SamplesPersist()
    ensures PersistentOnly(LearningSamples()) == LearningSamples()
  {
    AllPersistentKept(LearningSamples());
  }

  /** After prepending the samples, storage gets the samples followed by the old persistent records. */
  lemma SeedPersist(feed: seq<Post>)
    ensures PersistentOnly(LearningSamples() + feed) == LearningSamples() + PersistentOnly(feed)
  {
    PersistentOnlyConcat(LearningSamples(), feed);
    SamplesPersist();
  }

  /** A transient record at the front changes nothing in what is persisted. */
  lemma TransientInvisible(p: Post, feed: seq<Post>)
    requires !p.persistent
    ensures PersistentOnly([p] + feed) == PersistentOnly(feed)
  {
    PersistentOnlyConcat([p], feed);
  }

  /** `persistFeed` then `loadPersisted` gives exactly the persistent subsequence. */
  lemma ReloadAfterPersist(store: Store, feed: seq<Post>)
    ensures ReadFeed(store[FeedKey := Records(PersistentOnly(feed))]) == PersistentOnly(feed)
    ensures StoredOnlyPersistent(store[FeedKey := Records(PersistentOnly(feed))])
  {
  }

  /**
   * `persistFeed` then `loadInitialFeed`: the persistent subsequence, except
   * that an empty one is replaced by the samples.
   */
  lemma InitialAfterPersist(store: Store, feed: seq<Post>)
    ensures InitialFeed(store[FeedKey := Records(PersistentOnly(feed))])
         == if PersistentOnly(feed) == [] then LearningSamples() else PersistentOnly(feed)
  {
  }

  /** Read failures are not errors: a missing key, an empty text or an unparseable value reads as `[]`. */
  lemma ReadFailureIsEmpty(store: Store)
    requires FeedKey !in store || !store[FeedKey].Records?
    ensures ReadFeed(store) == [] && InitialFeed(store) == LearningSamples()
  {
  }

  /** Writing the feed key leaves the signed-in name a reload would see unchanged. */
  lemma FeedWriteKeepsUser(store: Store, v: StoredValue)
    ensures StoredUser(store[FeedKey := v]) == StoredUser(store)
  {
    assert FeedKey != UserKey;
  }

  /** Writing the session key leaves the stored feed unchanged. */
  lemma UserWriteKeepsFeed(store: Store, v: StoredValue)
    ensures ReadFeed(store[UserKey := v]) == ReadFeed(store)
  {
    assert FeedKey != UserKey;
  }

  /** Removing the session key leaves the stored feed unchanged. */
  lemma UserRemoveKeepsFeed(store: Store)
    ensures ReadFeed(store - {UserKey}) == ReadFeed(store)
  {
    assert FeedKey != UserKey;
  }
}
