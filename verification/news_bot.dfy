/** The news bot's run: the fixed source registry, the collection loop that
    fetches each feed and builds the digest step by step, and the guard that
    skips everything when no webhook is configured. Fetching a feed is a
    parameter (`fetch`), and the one outgoing post is returned as a value. */
module NewsBot {
  import opened Strings
  import opened Digest

  datatype Option<T> = None | Some(value: T)

  /** The names of the feed sources, in the order they are polled. Their
      feed URLs are opaque search queries and are not part of this model. */
  const RssFeedNames: seq<string> := [
    "Bridge.xyz (Stripe)", "BVNK", "Merge Money", "Rail.io", "IRON (Moonpay)", "Tazapay",
    "Airwallex", "Terrapay", "Rapyd", "Thunes", "Lightnet", "Revolut", "Wise (TransferWise)"
  ]

  /** The registry is a dictionary: no source name appears twice, so each
      source is polled once per run. */
  lemma RegistryNamesDistinct()
    ensures |RssFeedNames| == 13
    ensures forall i, j :: 0 <= i < j < |RssFeedNames| ==> RssFeedNames[i] != RssFeedNames[j]
  {
  }

  /** The feeds the collection pass sees: each source name paired with what
      fetching it returned. */
  function Fetched(names: seq<string>, fetch: string -> seq<Entry>): (r: seq<Source>)
    ensures |r| == |names|
    ensures forall i :: 0 <= i < |r| ==> r[i] == Source(names[i], fetch(names[i]))
  {
    if names == [] then []
    else Fetched(names[..|names| - 1], fetch) + [Source(names[|names| - 1], fetch(names[|names| - 1]))]
  }

  /** Fetching one more source appends one more pair. */
  lemma FetchedSnoc(names: seq<string>, fetch: string -> seq<Entry>, i: nat)
    requires i < |names|
    ensures Fetched(names[..i + 1], fetch) == Fetched(names[..i], fetch) + [Source(names[i], fetch(names[i]))]
  {
    assert names[..i + 1][..i] == names[..i];
  }

  /** The inner loop over one feed: the bullet lines of the entries at or
      after the cutoff, in feed order. */
  method CollectBullets(entries: seq<Entry>, cutoff: int) returns (newsForSource: seq<string>)
    ensures newsForSource == Bullets(Kept(entries, cutoff))
  {
    newsForSource := [];
    for j := 0 to |entries|
      invariant newsForSource == Bullets(Kept(entries[..j], cutoff))
    {
      if entries[j].published >= cutoff {
        newsForSource := newsForSource + [RenderBullet(entries[j])];
      }
      assert entries[..j + 1][..j] == entries[..j];
    }
    assert entries[..|entries|] == entries;
  }

  /** The filter-group-format pass: for each source in order, fetch its feed,
      collect the bullet lines of the entries at or after the cutoff, and
      add a section when there is at least one; then build the message.
      `fetched` lists the sources queried, in order. */
  method CollectAndFormat(names: seq<string>, fetch: string -> seq<Entry>, now: int, date: string)
    returns (text: string, fetched: seq<string>)
    ensures fetched == names
    ensures text == Compose(Fetched(names, fetch), now, date)
  {
    var cutoff := Cutoff(now);
    var allNewsItems: seq<string> := [];
    fetched := [];
    for i := 0 to |names|
      invariant fetched == names[..i]
      invariant allNewsItems == Sections(Fetched(names[..i], fetch), cutoff)
    {
      var entries := fetch(names[i]);
      fetched := fetched + [names[i]];
      var newsForSource := CollectBullets(entries, cutoff);
      if newsForSource != [] {
        allNewsItems := allNewsItems + [SectionText(names[i], newsForSource)];
      }
      FetchedSnoc(names, fetch, i);
    }
    assert names[..|names|] == names;
    if allNewsItems == [] {
      text := Sentinel;
    } else {
      text := Header(date) + Join("\n\n", allNewsItems);
    }
  }

  /** The one outgoing request: a JSON body `{"text": text}` posted to the
      webhook URL. */
  datatype Post = Post(url: string, text: string)

  /** The webhook setting counts as present only when set and non-empty. */
  predicate Configured(webhook: Option<string>)
  {
    webhook.Some? && webhook.value != ""
  }

  /** One run of the bot. Without a webhook it stops at once: no feed is
      fetched and nothing is posted. Otherwise every registry source is
      fetched in order and exactly one post carries the digest. */
  method FetchAndSendNews(webhook: Option<string>, fetch: string -> seq<Entry>, now: int, date: string)
    returns (fetched: seq<string>, post: Option<Post>)
    ensures !Configured(webhook) ==> fetched == [] && post == None
    ensures Configured(webhook) ==>
      fetched == RssFeedNames &&
      post == Some(Post(webhook.value, Compose(Fetched(RssFeedNames, fetch), now, date)))
  {
    if webhook.None? || webhook.value == "" {
      return [], None;
    }
    var text;
    text, fetched := CollectAndFormat(RssFeedNames, fetch, now, date);
    post := Some(Post(webhook.value, text));
  }
}
