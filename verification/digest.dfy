/** The collect-and-format pass of the news bot, as values: which feed
    entries survive the 24-hour window, how they are rendered, how the
    per-source sections are chosen and how the digest text is assembled.
    `NewsBot.CollectAndFormat` is proved to compute exactly `Compose`. */
module Digest {
  import opened Strings

  /** One feed item: its title, its link and its publication time in whole
      UTC seconds. */
  datatype Entry = Entry(title: string, link: string, published: int)

  /** A registry source together with the entries its feed returned. */
  datatype Source = Source(name: string, entries: seq<Entry>)

  /** `timedelta(hours=24)` in seconds. */
  const Window: int := 86400

  /** The bullet prefix exactly as the source spells it: the three characters
      U+00E2 U+20AC U+00A2 (a UTF-8 bullet read as Windows-1252) and a space. */
  const Bullet: string := "\U{E2}\U{20AC}\U{A2} "

  /** The message sent when no source had a recent entry: the sleep glyph,
      then the fixed sentence. */
  const Sentinel: string := ":zzz: " + "No significant news found for your keywords in the last 24 hours."

  /** The oldest publication time still considered new. */
  function Cutoff(now: int): int
  {
    now - Window
  }

  /** The window test; the comparison is inclusive. */
  predicate Recent(e: Entry, cutoff: int)
  {
    e.published >= cutoff
  }

  /** The entries of a feed that pass the window test, in feed order. */
  function Kept(entries: seq<Entry>, cutoff: int): (r: seq<Entry>)
    ensures |r| <= |entries|
    ensures forall k :: 0 <= k < |r| ==> Recent(r[k], cutoff)
  {
    if entries == [] then []
    else
      var last := entries[|entries| - 1];
      Kept(entries[..|entries| - 1], cutoff) + (if Recent(last, cutoff) then [last] else [])
  }

  /** An entry is kept if and only if it is in the feed and published at or
      after the cutoff. */
  lemma {:induction false} KeptMembers(entries: seq<Entry>, cutoff: int)
    ensures forall e :: e in Kept(entries, cutoff) <==> e in entries && Recent(e, cutoff)
  {
    if entries != [] {
      var init, last := entries[..|entries| - 1], entries[|entries| - 1];
      assert entries == init + [last];
      KeptMembers(init, cutoff);
    }
  }

  /** The positions in `entries` of the entries `Kept` keeps. */
  ghost function KeptPositions(entries: seq<Entry>, cutoff: int): seq<nat>
  {
    if entries == [] then []
    else
      var n := |entries| - 1;
      KeptPositions(entries[..n], cutoff) + (if Recent(entries[n], cutoff) then [n] else [])
  }

  /** `positions` lists indices below `n` in strictly increasing order. */
  ghost predicate Increasing(positions: seq<nat>, n: nat)
  {
    (forall k :: 0 <= k < |positions| ==> positions[k] < n) &&
    (forall k, l :: 0 <= k < l < |positions| ==> positions[k] < positions[l])
  }

  /** Each kept entry is the feed entry at the matching listed position,
      and the positions are strictly increasing: `Kept` preserves feed order. */
  lemma {:induction false} KeptInOrder(entries: seq<Entry>, cutoff: int)
    ensures var r, p := Kept(entries, cutoff), KeptPositions(entries, cutoff);
      |p| == |r| && Increasing(p, |entries|) &&
      forall k :: 0 <= k < |p| ==> r[k] == entries[p[k]]
  {
    if entries != [] {
      var n := |entries| - 1;
      KeptInOrder(entries[..n], cutoff);
      var r0, p0 := Kept(entries[..n], cutoff), KeptPositions(entries[..n], cutoff);
      forall k | 0 <= k < |p0| ensures r0[k] == entries[p0[k]] {
        assert entries[..n][p0[k]] == entries[p0[k]];
      }
    }
  }

  /** A feed position is kept if and only if its entry is at or after the
      cutoff: no recent entry is dropped and no old one is let through. */
  lemma {:induction false} KeptPositionsExactly(entries: seq<Entry>, cutoff: int)
    ensures forall i :: 0 <= i < |entries| ==>
      (i in KeptPositions(entries, cutoff) <==> Recent(entries[i], cutoff))
  {
    if entries != [] {
      var n := |entries| - 1;
      KeptPositionsExactly(entries[..n], cutoff);
      KeptInOrder(entries[..n], cutoff);
      var p0 := KeptPositions(entries[..n], cutoff);
      assert n !in p0;
      forall i | 0 <= i < n ensures entries[..n][i] == entries[i] { }
    }
  }

  /** An entry published exactly 24 hours before `now` is kept; one a second
      earlier is not. */
  lemma KeptAtBoundary(e: Entry, now: int)
    ensures e.published == now - 86400 ==> Kept([e], Cutoff(now)) == [e]
    ensures e.published == now - 86401 ==> Kept([e], Cutoff(now)) == []
  {
    assert [e][..0] == [];
  }

  /** One bullet line: the prefix, then Slack's `<link|title>` markup. */
  function RenderBullet(e: Entry): string
  {
    Bullet + "<" + e.link + "|" + e.title + ">"
  }

  /** The bullet lines of a list of entries, one per entry, in order. */
  function Bullets(entries: seq<Entry>): (r: seq<string>)
    ensures |r| == |entries|
    ensures forall k :: 0 <= k < |r| ==> r[k] == RenderBullet(entries[k])
  {
    if entries == [] then []
    else Bullets(entries[..|entries| - 1]) + [RenderBullet(entries[|entries| - 1])]
  }

  /** A source's section: its name in bold on the first line, then its
      bullets on the following lines. */
  function SectionText(name: string, bullets: seq<string>): string
  {
    "*" + name + "*\n" + Join("\n", bullets)
  }

  /** The section a source contributes, given the bullets of its kept
      entries. */
  function SectionOf(s: Source, cutoff: int): string
  {
    SectionText(s.name, Bullets(Kept(s.entries, cutoff)))
  }

  /** The sections of the digest, in registry order; a source whose feed has
      no recent entry contributes none. */
  function Sections(sources: seq<Source>, cutoff: int): (r: seq<string>)
    ensures |r| <= |sources|
  {
    if sources == [] then []
    else
      var last := sources[|sources| - 1];
      Sections(sources[..|sources| - 1], cutoff) +
        (if Bullets(Kept(last.entries, cutoff)) != [] then [SectionOf(last, cutoff)] else [])
  }

  /** The positions in `sources` of the sources that get a section. */
  ghost function SectionPositions(sources: seq<Source>, cutoff: int): seq<nat>
  {
    if sources == [] then []
    else
      var n := |sources| - 1;
      SectionPositions(sources[..n], cutoff) +
        (if Kept(sources[n].entries, cutoff) != [] then [n] else [])
  }

  /** Each section is that of the source at the matching listed position,
      that source has at least one kept entry (so no section is a bare
      header), and the positions are strictly increasing: sections follow
      registry order. */
  lemma {:induction false} SectionsInOrder(sources: seq<Source>, cutoff: int)
    ensures var r, p := Sections(sources, cutoff), SectionPositions(sources, cutoff);
      |p| == |r| && Increasing(p, |sources|) &&
      forall k :: 0 <= k < |p| ==>
        r[k] == SectionOf(sources[p[k]], cutoff) && Kept(sources[p[k]].entries, cutoff) != []
  {
    if sources != [] {
      var n := |sources| - 1;
      var init, last := sources[..n], sources[n];
      SectionsInOrder(init, cutoff);
      var r0, p0 := Sections(init, cutoff), SectionPositions(init, cutoff);
      var has := Kept(last.entries, cutoff) != [];
      assert (Bullets(Kept(last.entries, cutoff)) != []) == has;
      var r, p := r0 + (if has then [SectionOf(last, cutoff)] else []), p0 + (if has then [n] else []);
      assert Sections(sources, cutoff) == r;
      assert SectionPositions(sources, cutoff) == p;
      IncreasingSnoc(p0, n, has);
      forall k | 0 <= k < |p|
        ensures r[k] == SectionOf(sources[p[k]], cutoff) && Kept(sources[p[k]].entries, cutoff) != []
      {
        if k < |p0| {
          assert r[k] == r0[k] && p[k] == p0[k];
          assert init[p0[k]] == sources[p0[k]];
        }
      }
    }
  }

  /** Appending a position past all listed ones keeps a list increasing. */
  lemma IncreasingSnoc(p0: seq<nat>, n: nat, b: bool)
    requires Increasing(p0, n)
    ensures Increasing(p0 + (if b then [n] else []), n + 1)
  {
  }

  /** Every listed position is a position of the registry. */
  lemma {:induction false} SectionPositionsBelow(sources: seq<Source>, cutoff: int)
    ensures forall x :: x in SectionPositions(sources, cutoff) ==> x < |sources|
  {
    if sources != [] {
      SectionPositionsBelow(sources[..|sources| - 1], cutoff);
    }
  }

  /** A source gets a section if and only if at least one of its entries is
      at or after the cutoff. */
  lemma {:induction false} SectionPositionsExactly(sources: seq<Source>, cutoff: int)
    ensures forall i :: 0 <= i < |sources| ==>
      (i in SectionPositions(sources, cutoff) <==> Kept(sources[i].entries, cutoff) != [])
  {
    if sources != [] {
      var n := |sources| - 1;
      var init := sources[..n];
      SectionPositionsExactly(init, cutoff);
      SectionPositionsBelow(init, cutoff);
      var p0 := SectionPositions(init, cutoff);
      var has := Kept(sources[n].entries, cutoff) != [];
      assert SectionPositions(sources, cutoff) == p0 + (if has then [n] else []);
      forall i | 0 <= i < |sources|
        ensures i in p0 + (if has then [n] else []) <==> Kept(sources[i].entries, cutoff) != []
      {
        SnocMember(p0, n, has, i);
        if i < n {
          assert init[i] == sources[i];
        }
      }
    }
  }

  /** Membership in a position list extended by at most one larger position. */
  lemma SnocMember(p0: seq<nat>, n: nat, b: bool, i: nat)
    requires forall x :: x in p0 ==> x < n
    ensures i in p0 + (if b then [n] else []) <==> (i < n && i in p0) || (i == n && b)
  {
  }

  /** The first line of a non-empty digest, followed by a blank line. */
  function Header(date: string): string
  {
    ":newspaper: *Hourly News Digest - " + date + "*\n\n"
  }

  /** The digest text for a list of sections. */
  function Message(sections: seq<string>, date: string): string
  {
    if sections == [] then Sentinel
    else Header(date) + Join("\n\n", sections)
  }

  /** The message text one run produces from the fetched feeds, the clock
      reading and the rendered date. */
  function Compose(sources: seq<Source>, now: int, date: string): string
  {
    Message(Sections(sources, Cutoff(now)), date)
  }

  /** The sentinel is sent if and only if there is no section: a digest can
      never spell the sentinel, whatever the date and sections. */
  lemma MessageIsSentinelIff(sections: seq<string>, date: string)
    ensures Message(sections, date) == Sentinel <==> sections == []
  {
    if sections != [] {
      assert Message(sections, date)[1] == 'n';
      assert Sentinel[1] == 'z';
    }
  }

  /** No section is produced if and only if every feed's kept list is
      empty. */
  lemma NoSectionsIff(sources: seq<Source>, cutoff: int)
    ensures Sections(sources, cutoff) == [] <==>
      forall i :: 0 <= i < |sources| ==> Kept(sources[i].entries, cutoff) == []
  {
    SectionsInOrder(sources, cutoff);
    SectionPositionsExactly(sources, cutoff);
    var p := SectionPositions(sources, cutoff);
    if Sections(sources, cutoff) != [] {
      assert p[0] in p;
    }
  }

  /** End to end: the run's message is the sentinel if and only if no feed
      had an entry published at or after `now` minus 24 hours. */
  lemma ComposeIsSentinelIff(sources: seq<Source>, now: int, date: string)
    ensures Compose(sources, now, date) == Sentinel <==>
      forall i, e :: 0 <= i < |sources| && e in sources[i].entries ==> e.published < now - 86400
  {
    var cutoff := Cutoff(now);
    MessageIsSentinelIff(Sections(sources, cutoff), date);
    NoSectionsIff(sources, cutoff);
    if Compose(sources, now, date) == Sentinel {
      forall i, e | 0 <= i < |sources| && e in sources[i].entries
        ensures e.published < now - 86400
      {
        KeptMembers(sources[i].entries, cutoff);
      }
    } else {
      var i :| 0 <= i < |sources| && Kept(sources[i].entries, cutoff) != [];
      var e := Kept(sources[i].entries, cutoff)[0];
      KeptMembers(sources[i].entries, cutoff);
      assert e in Kept(sources[i].entries, cutoff);
    }
  }

  /** A section opens with its header line, and each of its bullet lines is
      visible in it after that header line. */
  lemma BulletInSection(name: string, bullets: seq<string>, j: nat)
    requires j < |bullets|
    ensures exists p :: p >= |"*" + name + "*\n"| && OccursAt(bullets[j], SectionText(name, bullets), p)
    ensures OccursAt("*" + name + "*\n", SectionText(name, bullets), 0)
  {
    var head := "*" + name + "*\n";
    var b := JoinOffset("\n", bullets, j);
    var body := Join("\n", bullets);
    var section := SectionText(name, bullets);
    assert section == head + body;
    assert section[|head| + b..|head| + b + |bullets[j]|] == body[b..b + |bullets[j]|];
    assert OccursAt(bullets[j], section, |head| + b);
    assert section[0..|head|] == head;
  }

  /** Every section is visible in the digest, after its header line. */
  lemma SectionInMessage(sections: seq<string>, date: string, k: nat)
    requires k < |sections|
    ensures exists p :: p >= |Header(date)| && OccursAt(sections[k], Message(sections, date), p)
  {
    var off := JoinOffset("\n\n", sections, k);
    var body := Join("\n\n", sections);
    var m := Message(sections, date);
    assert m == Header(date) + body;
    assert m[|Header(date)| + off..|Header(date)| + off + |sections[k]|] == body[off..off + |sections[k]|];
    assert OccursAt(sections[k], m, |Header(date)| + off);
  }

  /** Every recent entry shows up in the digest as its bullet line, and the
      header line of its source shows up too. */
  lemma KeptEntryAppears(sources: seq<Source>, now: int, date: string, i: nat, e: Entry)
    requires i < |sources| && e in sources[i].entries && e.published >= now - 86400
    ensures Occurs(RenderBullet(e), Compose(sources, now, date))
    ensures Occurs("*" + sources[i].name + "*\n", Compose(sources, now, date))
  {
    var cutoff := Cutoff(now);
    var sections := Sections(sources, cutoff);
    var kept := Kept(sources[i].entries, cutoff);
    KeptMembers(sources[i].entries, cutoff);
    assert e in kept;
    SectionsInOrder(sources, cutoff);
    SectionPositionsExactly(sources, cutoff);
    var p := SectionPositions(sources, cutoff);
    var k :| 0 <= k < |p| && p[k] == i;
    var j :| 0 <= j < |kept| && kept[j] == e;
    var bullets := Bullets(kept);
    assert bullets[j] == RenderBullet(e);
    assert sections[k] == SectionText(sources[i].name, bullets);
    BulletInSection(sources[i].name, bullets, j);
    var head := "*" + sources[i].name + "*\n";
    var b :| b >= |head| && OccursAt(RenderBullet(e), sections[k], b);
    assert OccursAt(head, sections[k], 0);
    SectionInMessage(sections, date, k);
    var q :| q >= |Header(date)| && OccursAt(sections[k], Compose(sources, now, date), q);
    OccursTransitive(RenderBullet(e), sections[k], Compose(sources, now, date));
    OccursTransitive("*" + sources[i].name + "*\n", sections[k], Compose(sources, now, date));
  }

  /** A piece of a piece of `c` is a piece of `c`. */
  lemma OccursTransitive(a: string, b: string, c: string)
    requires Occurs(a, b) && Occurs(b, c)
    ensures Occurs(a, c)
  {
    var k: nat :| OccursAt(a, b, k);
    var m: nat :| OccursAt(b, c, m);
    forall j | 0 <= j < |a| ensures c[m + k + j] == a[j] {
      assert a[j] == b[k..k + |a|][j] == b[k + j];
      assert b[k + j] == c[m..m + |b|][k + j];
    }
    assert OccursAt(a, c, m + k);
  }
}
