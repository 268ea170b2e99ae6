/**
 * The page's module-level state — `runtimeFeed`, `currentUser` and the
 * browser's local storage — and the actions that change it. Dialogs become
 * inputs: a confirmation is a boolean, a form field a string, the picked file
 * a flag with the object URL the browser would mint for it.
 */
module App {
  import opened Wrappers
  import opened Text
  import opened Feed

  /** The name a sign-in records: the trimmed display name, or else the trimmed username. */
  function SignInName(usernameInput: string, displayNameInput: string): (r: string)
    ensures Trim(r) == r
    ensures r == "" <==> Trim(usernameInput) == "" && Trim(displayNameInput) == ""
  {
    var d := Trim(displayNameInput);
    TrimIdempotent(displayNameInput);
    TrimIdempotent(usernameInput);
    if d != "" then d else Trim(usernameInput)
  }

  /** `captionInput.value.trim() || 'User upload'`. */
  function UploadCaption(captionInput: string): (r: string)
    ensures r != "" && Trim(r) == r
  {
    var c := Trim(captionInput);
    TrimIdempotent(captionInput);
    TrimKeepsClean("User upload");
    if c != "" then c else "User upload"
  }

  class SnapBridge {
    var feed: seq<Post>
    var currentUser: Option<string>
    var store: Store

    /** The session the page shows is the one a reload would read back. */
    ghost predicate Valid()
      reads this
    {
      currentUser == StoredUser(store)
    }

    /** Page load: an empty feed and the user named in storage, if any. */
    constructor (initial: Store)
      ensures Valid()
      ensures feed == [] && store == initial && currentUser == StoredUser(initial)
    {
      feed := [];
      store := initial;
      currentUser := StoredUser(initial);
    }

    /** `persistFeed(f)`: only the persistent records of `f`, in order, go to storage. */
    method PersistFeed(f: seq<Post>)
      requires Valid()
      modifies this`store
      ensures Valid()
      ensures store == old(store)[FeedKey := Records(PersistentOnly(f))]
      ensures ReadFeed(store) == PersistentOnly(f) && StoredOnlyPersistent(store)
    {
      FeedWriteKeepsUser(store, Records(PersistentOnly(f)));
      store := store[FeedKey := Records(PersistentOnly(f))];
    }

    /** `loadPersisted()`: the stored records, or `[]` when the key is missing or unreadable. */
    method LoadPersisted() returns (r: seq<Post>)
      ensures r == ReadFeed(store)
      ensures (FeedKey !in store || !store[FeedKey].Records?) ==> r == []
    {
      if FeedKey !in store {
        return [];
      }
      match store[FeedKey]
      case Records(posts) => r := posts;
      case _ => r := [];
    }

    /**
     * `loadInitialFeed()`: copy the persisted records into the feed; when
     * there are none, use the samples and persist them.
     */
    method LoadInitialFeed()
      requires Valid()
      modifies this`feed, this`store
      ensures Valid()
      ensures feed == InitialFeed(old(store))
      ensures ReadFeed(old(store)) == [] ==>
                feed == LearningSamples() && store == old(store)[FeedKey := Records(LearningSamples())]
      ensures ReadFeed(old(store)) != [] ==> feed == ReadFeed(old(store)) && store == old(store)
      ensures StoredOnlyPersistent(old(store)) ==> InSync(feed, store) && StoredOnlyPersistent(store)
    {
      var persisted := LoadPersisted();
      feed := [];
      var i := 0;
      while i < |persisted|
        invariant 0 <= i <= |persisted|
        invariant feed == persisted[..i]
        invariant store == old(store)
      {
        feed := feed + [persisted[i]];
        i := i + 1;
      }
      assert persisted[..i] == persisted;
      if |feed| == 0 {
        feed := LearningSamples();
        SamplesPersist();
        PersistFeed(feed);
      } else if StoredOnlyPersistent(store) {
        AllPersistentKept(feed);
      }
    }

    /** `seedLearning()`: prepend the samples and persist the result. */
    method SeedLearning()
      requires Valid()
      modifies this`feed, this`store
      ensures Valid()
      ensures feed == LearningSamples() + old(feed) && |feed| == |old(feed)| + 3
      ensures store == old(store)[FeedKey := Records(PersistentOnly(feed))]
      ensures ReadFeed(store) == LearningSamples() + PersistentOnly(old(feed))
      ensures InSync(feed, store) && StoredOnlyPersistent(store)
    {
      feed := LearningSamples() + feed;
      PersistFeed(feed);
      SeedPersist(old(feed));
    }

    /**
     * `doUploadFile()`: with no file picked nothing changes (`ok` is false:
     * the alert); otherwise a transient record is put at the front of the
     * feed and storage is left alone.
     */
    method DoUploadFile(hasFile: bool, captionInput: string, objectUrl: string) returns (ok: bool)
      requires Valid()
      modifies this`feed
      ensures Valid()
      ensures ok == hasFile
      ensures !ok ==> feed == old(feed)
      ensures ok ==> feed == [Post(objectUrl, currentUser.GetOr("Guest"), UploadCaption(captionInput), false)] + old(feed)
      ensures ok ==> feed[0].caption != "" && feed[0].user != "" && !feed[0].persistent
      ensures store == old(store) && currentUser == old(currentUser)
      ensures InSync(old(feed), store) ==> InSync(feed, store)
    {
      if !hasFile {
        return false;
      }
      var post := Post(objectUrl, currentUser.GetOr("Guest"), UploadCaption(captionInput), false);
      TransientInvisible(post, feed);
      feed := [post] + feed;
      ok := true;
    }

    /** `clearFeed()`: when confirmed, empty the feed and store the empty list. */
    method ClearFeed(confirmed: bool)
      requires Valid()
      modifies this`feed, this`store
      ensures Valid()
      ensures !confirmed ==> feed == old(feed) && store == old(store)
      ensures confirmed ==> feed == [] && store == old(store)[FeedKey := Records([])]
      ensures confirmed ==> InSync(feed, store) && InitialFeed(store) == LearningSamples()
    {
      if !confirmed {
        return;
      }
      feed := [];
      PersistFeed(feed);
    }

    /**
     * `doSignIn()`: a blank username changes nothing (`ok` is false: the
     * alert); otherwise the chosen name becomes the session and is stored.
     */
    method DoSignIn(usernameInput: string, displayNameInput: string) returns (ok: bool)
      requires Valid()
      modifies this`currentUser, this`store
      ensures Valid()
      ensures ok == (Trim(usernameInput) != "")
      ensures !ok ==> currentUser == old(currentUser) && store == old(store)
      ensures ok ==> currentUser == Some(SignInName(usernameInput, displayNameInput))
      ensures ok ==> store == old(store)[UserKey := Text(SignInName(usernameInput, displayNameInput))]
      ensures ok && Trim(displayNameInput) != "" ==> currentUser == Some(Trim(displayNameInput))
      ensures ok && Trim(displayNameInput) == "" ==> currentUser == Some(Trim(usernameInput))
      ensures ReadFeed(store) == ReadFeed(old(store))
    {
      var u := Trim(usernameInput);
      var d := Trim(displayNameInput);
      if u == "" {
        return false;
      }
      var name := if d != "" then d else u;
      currentUser := Some(name);
      UserWriteKeepsFeed(store, Text(name));
      store := store[UserKey := Text(name)];
      ok := true;
    }

    /** `doSignOut()`: when confirmed, forget the session and remove its key. */
    method DoSignOut(confirmed: bool)
      requires Valid()
      modifies this`currentUser, this`store
      ensures Valid()
      ensures !confirmed ==> currentUser == old(currentUser) && store == old(store)
      ensures confirmed ==> currentUser == None && store == old(store) - {UserKey}
      ensures ReadFeed(store) == ReadFeed(old(store))
    {
      if !confirmed {
        return;
      }
      currentUser := None;
      UserRemoveKeepsFeed(store);
      store := store - {UserKey};
    }
  }

  /** Sign-in succeeds exactly for a non-blank username, and records a non-blank, trimmed name. */
  lemma SignInNameClean(usernameInput: string, displayNameInput: string)
    requires Trim(usernameInput) != ""
    ensures var n := SignInName(usernameInput, displayNameInput);
      && n != "" && Trim(n) == n
      && (Trim(displayNameInput) != "" ==> n == Trim(displayNameInput))
      && (Trim(displayNameInput) == "" ==> n == Trim(usernameInput))
  {
    if Trim(displayNameInput) != "" {
      TrimIdempotent(displayNameInput);
    } else {
      TrimIdempotent(usernameInput);
    }
  }

  /** An upload's caption is the trimmed input, or the default when that is blank; it is never empty. */
  lemma UploadCaptionClean(captionInput: string)
    ensures var c := UploadCaption(captionInput);
      && c != ""
      && (Trim(captionInput) != "" ==> c == Trim(captionInput))
      && (Trim(captionInput) == "" ==> c == "User upload")
  {
    TrimIdempotent(captionInput);
  }
}
