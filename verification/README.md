# News-to-Slack bot: verified model of the digest pass

The bot polls a fixed registry of Google News search feeds once per run.
It keeps the entries published in the last 24 hours and groups them into
one section per source, in registry order. It posts the resulting digest
(or a fixed "no news" sentence) to a Slack webhook. This project models
that run in Dafny:

- `strings.dfy`, module `Strings`: Python's `str.join` (`Join`) and a
  "contiguous piece of" relation (`Occurs`) used to state what the digest
  contains.
- `digest.dfy`, module `Digest`: the collect-and-format pass as functions.
  `Kept` is the 24-hour filter, `Bullets` renders the entries and
  `Sections` chooses and renders the per-source sections. `Message` and
  `Compose` assemble the text. Lemmas state what these functions promise.
- `news_bot.dfy`, module `NewsBot`: the source registry and the run itself.
  `CollectAndFormat` and `CollectBullets` are the nested loops of
  `fetch_and_send_news`, which append to `all_news_items` and
  `news_for_source`. They are proved to compute exactly `Compose`.
  `FetchAndSendNews` adds the early return when no webhook is configured.

Modelling choices:

- Times are whole UTC seconds (`int`), and the 24-hour `timedelta` is the
  constant 86400.
- The clock reading `now` and the rendered date string are parameters.
- Fetching a feed is a parameter `fetch` from source name to its entries.
- The single Slack request is returned as a `Post(url, text)` value.
- The bullet prefix is kept exactly as written in the source. It is the
  three characters U+00E2 U+20AC U+00A2 followed by a space, a UTF-8
  bullet decoded as Windows-1252.
- The message is a function of the fetched feeds, `now` and the date
  string only, so a run is deterministic in those inputs.

news_bot.py:43 and news_bot.py:47 have no exception handler, so an
exception raised while fetching a feed or building a publication time ends
the run. The model gives the bot neither skip-on-failure nor
drop-on-malformed behaviour.

## Model

| member | source | states |
|---|---|---|
| `Digest.Kept` | news_bot.py:45-48 | the kept entries are no more than the feed's entries, and every one is published at or after the cutoff |
| `Digest.KeptMembers` | news_bot.py:47-48 | an entry is kept if and only if it is in the feed and its publication time is >= the cutoff |
| `Digest.KeptInOrder` | news_bot.py:45-49 | the kept entries are the feed entries at strictly increasing positions, so feed order is preserved |
| `Digest.KeptPositionsExactly` | news_bot.py:47-48 | a feed position is kept if and only if its entry is at or after the cutoff (no recent entry dropped, no old one admitted) |
| `Digest.KeptAtBoundary` | news_bot.py:37-48 | an entry exactly 86400 s before `now` is kept (inclusive comparison); one 86401 s before is dropped |
| `Digest.RenderBullet` | news_bot.py:49 | one entry's bullet line: the bullet prefix (U+00E2 U+20AC U+00A2 and a space), then `<`, the link, a vertical bar, the title and `>` |
| `Digest.Bullets` | news_bot.py:49 | one bullet per entry, in order, each being the bullet prefix followed by `<`, the link, a vertical bar, the title and `>` |
| `Digest.Sections` | news_bot.py:42-52 | the sections of the sources, in registry order, one per source whose bullet list is non-empty; there are never more sections than sources |
| `Digest.SectionsInOrder` | news_bot.py:42-52 | each section is `"*" + name + "*\n"` then its bullets joined with `"\n"`, one bullet per kept entry; its source has at least one kept entry; sections follow registry order |
| `Digest.SectionPositionsExactly` | news_bot.py:51-52 | a source gets a section if and only if at least one of its entries is kept |
| `Digest.NoSectionsIff` | news_bot.py:51-55 | no section at all if and only if every feed's kept list is empty |
| `Digest.Message` | news_bot.py:55-60 | no sections gives the sentinel `":zzz: No significant news found for your keywords in the last 24 hours."`; otherwise `":newspaper: *Hourly News Digest - " + date + "*\n\n"` followed by the sections joined with `"\n\n"` |
| `Digest.Compose` | news_bot.py:37-60 | the run's message as a function of the fetched feeds, `now` and the date string only: `Message` of the sections built with cutoff `now - 86400` |
| `Digest.MessageIsSentinelIff` | news_bot.py:55-60 | the message is the "no significant news" sentinel if and only if there are no sections; a digest can never equal the sentinel |
| `Digest.ComposeIsSentinelIff` | news_bot.py:37-60 | end to end: the sentinel is sent if and only if every entry of every feed is older than `now - 86400` |
| `Digest.BulletInSection` | news_bot.py:52 | a section opens with its header line `"*" + name + "*\n"`, and each of its bullet lines occurs in it at an offset past that header line |
| `Digest.SectionInMessage` | news_bot.py:60 | the digest contains each of its sections at an offset past the `:newspaper:` header line |
| `Digest.KeptEntryAppears` | news_bot.py:42-60 | every entry at or after the cutoff appears in the sent message as its bullet line, together with its source's header line |
| `Strings.Join` | news_bot.py:52 | Python's `sep.join(parts)`: empty for no parts, the part itself for one, otherwise the parts in order with `sep` between neighbours |
| `Strings.JoinOffset` | news_bot.py:52 | every part of a join occurs in the joined text |
| `NewsBot.RssFeedNames` | news_bot.py:8-24 | the 13 registry source names in the dictionary's order, from "Bridge.xyz (Stripe)" to "Wise (TransferWise)" |
| `NewsBot.RegistryNamesDistinct` | news_bot.py:8-24 | the registry holds 13 sources with pairwise distinct names |
| `NewsBot.Fetched` | news_bot.py:42-43 | the pass sees one (name, fetched entries) pair per registry source, in registry order |
| `NewsBot.CollectBullets` | news_bot.py:44-49 | the inner loop's `news_for_source` is the bullets of exactly the kept entries |
| `NewsBot.CollectAndFormat` | news_bot.py:36-60 | the nested loops query every source in order and produce exactly `Compose` of the fetched feeds, `now` and the date |
| `NewsBot.FetchAndSendNews` | news_bot.py:30-70 | with an absent or empty webhook URL, nothing is fetched and nothing is posted; otherwise every source is fetched in order and one post carries the digest to the webhook |

## Left out

- Network fetch (`feedparser.parse`, news_bot.py:43): the parsed entries of each feed are the `fetch` parameter.
- The feed URLs in the registry (news_bot.py:10-23): opaque query strings. Only source names and their order are modelled.
- Slack delivery (`requests.post`, the 10-second timeout, `raise_for_status` and the exception handler, news_bot.py:64-74): the model returns the single request as a value and does not model its outcome.
- Environment access (`os.environ.get`, news_bot.py:27): the webhook setting is an `Option<string>` parameter.
- Clock and date rendering (`datetime.now`, `strftime("%B %d, %Y")`, news_bot.py:37 and 59): `now` and the date string are parameters.
- Struct-time to `datetime` conversion (news_bot.py:47): publication times are given as integer seconds.
- Sub-second precision: `datetime.now` carries microseconds, while the model's `now` is whole seconds. With a non-zero fractional part, the source drops an entry published exactly on `floor(now) - 86400`; the model keeps it.
- Exceptions for missing or malformed timestamps, for failing fetches, and for a recent entry with no `link` or `title` (news_bot.py:43, 47, 49): the source aborts the run. The model's entries always carry a time, a link and a title, and `fetch` always returns.
- `print` diagnostics (news_bot.py:33, 41, 57, 61, 72, 74): logging only.
