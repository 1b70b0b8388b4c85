/** Rich-text facets with byte offsets into the encoded text (`providers/bluesky.py`, `_parse_facets`): links, mentions
    and hashtags, each kind from the ordered and disjoint matches of its own pattern. */
module Facets {
  import opened Prelude
  import opened Utf8

  /** A regular-expression match: the characters `[start, end)` of the text. */
  datatype Match = Match(start: nat, end: nat)

  datatype Feature = Link(uri: Text) | Mention(did: string) | Tag(tag: Text)

  datatype Facet = Facet(byteStart: nat, byteEnd: nat, feature: Feature)

  /** What `finditer` yields for one pattern: non-empty ranges of the text, in order and disjoint. */
  ghost predicate IsMatchList(text: Text, ms: seq<Match>) {
    && (forall i | 0 <= i < |ms| :: ms[i].start < ms[i].end <= |text|)
    && (forall i, j | 0 <= i < j < |ms| :: ms[i].end <= ms[j].start)
  }

  /** The facet covers exactly the characters of the match. */
  ghost predicate Covers(text: Text, m: Match, f: Facet) {
    && m.start < m.end <= |text|
    && f.byteStart < f.byteEnd <= |Encode(text)|
    && Encode(text)[f.byteStart..f.byteEnd] == Encode(text[m.start..m.end])
    && Decode(Encode(text)[f.byteStart..f.byteEnd]) == Some(text[m.start..m.end])
    && IsBoundary(Encode(text), f.byteStart)
    && IsBoundary(Encode(text), f.byteEnd)
    && f.byteStart == Offset(text, m.start)
  }

  ghost predicate InOrder(fs: seq<Facet>) {
    forall i, j | 0 <= i < j < |fs| :: fs[i].byteEnd <= fs[j].byteStart
  }

  /** Group 1 of the mention and hashtag patterns: the match without its leading `@` or `#`. */
  function Group(text: Text, m: Match): Text
    requires m.start < m.end <= |text|
  {
    text[m.start + 1..m.end]
  }

  lemma OffsetsCover(text: Text, m: Match, feature: Feature)
    requires m.start < m.end <= |text|
    ensures Covers(text, m, Facet(Offset(text, m.start), Offset(text, m.end), feature))
  {
    SliceIsTheSubstring(text, m.start, m.end);
    OffsetsGrow(text, m.start, m.end);
  }

  lemma CoversInOrder(text: Text, m: Match, f: Facet, m': Match, f': Facet)
    requires Covers(text, m, f) && Covers(text, m', f') && m.end <= m'.start
    ensures f.byteEnd <= f'.byteStart
  {
    SliceIsTheSubstring(text, m.start, m.end);
    OffsetsGrow(text, m.end, m'.start);
    var bytes := Encode(text);
    assert |bytes[f.byteStart..f.byteEnd]| == f.byteEnd - f.byteStart;
    assert |bytes[Offset(text, m.start)..Offset(text, m.end)]| == Offset(text, m.end) - Offset(text, m.start);
  }

  lemma CoversAreInOrder(text: Text, ms: seq<Match>, fs: seq<Facet>)
    requires IsMatchList(text, ms) && |fs| == |ms| && forall k | 0 <= k < |ms| :: Covers(text, ms[k], fs[k])
    ensures InOrder(fs)
  {
    forall i, j | 0 <= i < j < |fs| ensures fs[i].byteEnd <= fs[j].byteStart {
      CoversInOrder(text, ms[i], fs[i], ms[j], fs[j]);
    }
  }

  /** Each facet covers its own match, and links to what it covers. */
  ghost predicate AreLinks(text: Text, links: seq<Match>, fs: seq<Facet>)
    requires forall m | m in links :: m.start < m.end <= |text|
  {
    && |fs| == |links|
    && forall k | 0 <= k < |links| ::
         Covers(text, links[k], fs[k]) && fs[k].feature == Link(text[links[k].start..links[k].end])
  }

  method LinkFacets(text: Text, links: seq<Match>) returns (fs: seq<Facet>)
    requires IsMatchList(text, links)
    ensures AreLinks(text, links, fs) && InOrder(fs)
  {
    fs := [];
    for i := 0 to |links|
      invariant |fs| == i
      invariant forall k | 0 <= k < i ::
                  Covers(text, links[k], fs[k]) && fs[k].feature == Link(text[links[k].start..links[k].end])
    {
      var m := links[i];
      var byteStart := |Encode(text[..m.start])|;
      var byteEnd := |Encode(text[..m.end])|;
      OffsetsCover(text, m, Link(text[m.start..m.end]));
      fs := fs + [Facet(byteStart, byteEnd, Link(text[m.start..m.end]))];
    }
    CoversAreInOrder(text, links, fs);
  }

  /** The matches whose handle resolves. */
  function Resolved(text: Text, mentions: seq<Match>, resolve: Text -> Option<string>): (kept: seq<Match>)
    requires forall m | m in mentions :: m.start < m.end <= |text|
    ensures forall m | m in kept :: m in mentions && resolve(Group(text, m)).Some?
  {
    if mentions == [] then []
    else
      var n := |mentions| - 1;
      assert mentions[n] in mentions;
      Resolved(text, mentions[..n], resolve)
      + if resolve(Group(text, mentions[n])).Some? then [mentions[n]] else []
  }

  lemma {:induction false} ResolvedIsMatchList(text: Text, mentions: seq<Match>, resolve: Text -> Option<string>)
    requires IsMatchList(text, mentions)
    ensures IsMatchList(text, Resolved(text, mentions, resolve))
  {
    if mentions != [] {
      var n := |mentions| - 1;
      ResolvedIsMatchList(text, mentions[..n], resolve);
      var kept := Resolved(text, mentions[..n], resolve);
      forall k | k in kept ensures k.end <= mentions[n].start {
        assert k in mentions[..n];
      }
      OneMoreMatch(text, kept, mentions[n]);
    }
  }

  lemma OneMoreMatch(text: Text, ms: seq<Match>, m: Match)
    requires IsMatchList(text, ms) && m.start < m.end <= |text| && forall k | k in ms :: k.end <= m.start
    ensures IsMatchList(text, ms + [m])
  {
  }

  lemma {:induction false} ResolvedStep(text: Text, mentions: seq<Match>, i: nat, resolve: Text -> Option<string>)
    requires IsMatchList(text, mentions) && i < |mentions|
    ensures Resolved(text, mentions[..i + 1], resolve)
            == Resolved(text, mentions[..i], resolve)
               + if resolve(Group(text, mentions[i])).Some? then [mentions[i]] else []
  {
    assert mentions[..i + 1][..i] == mentions[..i];
  }

  /** `fs` are the facets of the matches `kept`, with the identities they resolve to. */
  ghost predicate AreMentions(text: Text, kept: seq<Match>, resolve: Text -> Option<string>, fs: seq<Facet>)
    requires forall m | m in kept :: m.start < m.end <= |text|
  {
    && |fs| == |kept|
    && forall k | 0 <= k < |kept| ::
         Covers(text, kept[k], fs[k]) && fs[k].feature.Mention?
         && resolve(Group(text, kept[k])) == Some(fs[k].feature.did)
  }

  lemma OneMoreMention(text: Text, kept: seq<Match>, resolve: Text -> Option<string>, fs: seq<Facet>, m: Match,
                       f: Facet)
    requires forall k | k in kept :: k.start < k.end <= |text|
    requires AreMentions(text, kept, resolve, fs) && m.start < m.end <= |text|
    requires Covers(text, m, f) && f.feature.Mention? && resolve(Group(text, m)) == Some(f.feature.did)
    ensures forall k | k in kept + [m] :: k.start < k.end <= |text|
    ensures AreMentions(text, kept + [m], resolve, fs + [f])
  {
  }

  /** A handle that does not resolve is skipped; the others keep their order. */
  method MentionFacets(text: Text, mentions: seq<Match>, resolve: Text -> Option<string>) returns (fs: seq<Facet>)
    requires IsMatchList(text, mentions)
    ensures AreMentions(text, Resolved(text, mentions, resolve), resolve, fs) && InOrder(fs)
  {
    fs := [];
    for i := 0 to |mentions|
      invariant AreMentions(text, Resolved(text, mentions[..i], resolve), resolve, fs)
    {
      var m := mentions[i];
      ResolvedStep(text, mentions, i, resolve);
      var f := MentionFacet(text, m, resolve);
      if f.Some? {
        OneMoreMention(text, Resolved(text, mentions[..i], resolve), resolve, fs, m, f.value);
        fs := fs + [f.value];
      }
    }
    assert mentions[..|mentions|] == mentions;
    ResolvedIsMatchList(text, mentions, resolve);
    CoversAreInOrder(text, Resolved(text, mentions, resolve), fs);
  }

  method MentionFacet(text: Text, m: Match, resolve: Text -> Option<string>) returns (f: Option<Facet>)
    requires m.start < m.end <= |text|
    ensures f.None? <==> resolve(Group(text, m)).None?
    ensures f.Some? ==>
              && Covers(text, m, f.value) && f.value.feature.Mention?
              && resolve(Group(text, m)) == Some(f.value.feature.did)
  {
    var byteStart := |Encode(text[..m.start])|;
    var byteEnd := |Encode(text[..m.end])|;
    var did := resolve(Group(text, m));
    if did.None? {
      return None;
    }
    OffsetsCover(text, m, Mention(did.value));
    f := Some(Facet(byteStart, byteEnd, Mention(did.value)));
  }

  /** Each facet covers its own match, and is named like it without its sign. */
  ghost predicate AreTags(text: Text, tags: seq<Match>, fs: seq<Facet>)
    requires forall m | m in tags :: m.start < m.end <= |text|
  {
    && |fs| == |tags|
    && forall k | 0 <= k < |tags| :: Covers(text, tags[k], fs[k]) && fs[k].feature == Tag(Group(text, tags[k]))
  }

  method TagFacets(text: Text, tags: seq<Match>) returns (fs: seq<Facet>)
    requires IsMatchList(text, tags)
    ensures AreTags(text, tags, fs) && InOrder(fs)
  {
    fs := [];
    for i := 0 to |tags|
      invariant |fs| == i
      invariant forall k | 0 <= k < i :: Covers(text, tags[k], fs[k]) && fs[k].feature == Tag(Group(text, tags[k]))
    {
      var m := tags[i];
      var byteStart := |Encode(text[..m.start])|;
      var byteEnd := |Encode(text[..m.end])|;
      OffsetsCover(text, m, Tag(Group(text, m)));
      fs := fs + [Facet(byteStart, byteEnd, Tag(Group(text, m)))];
    }
    CoversAreInOrder(text, tags, fs);
  }

  /** `_parse_facets`: links, then mentions, then hashtags; every facet covers its own match. */
  method ParseFacets(text: Text, links: seq<Match>, mentions: seq<Match>, tags: seq<Match>,
                     resolve: Text -> Option<string>)
    returns (facets: seq<Facet>)
    requires IsMatchList(text, links) && IsMatchList(text, mentions) && IsMatchList(text, tags)
    ensures var n := |facets| - |tags|;
            && |links| <= n
            && AreLinks(text, links, facets[..|links|]) && InOrder(facets[..|links|])
            && AreMentions(text, Resolved(text, mentions, resolve), resolve, facets[|links|..n])
            && InOrder(facets[|links|..n])
            && AreTags(text, tags, facets[n..]) && InOrder(facets[n..])
  {
    var linkFacets := LinkFacets(text, links);
    var mentionFacets := MentionFacets(text, mentions, resolve);
    var tagFacets := TagFacets(text, tags);
    facets := linkFacets + mentionFacets + tagFacets;
    assert facets[..|links|] == linkFacets;
    assert facets[|links|..|facets| - |tags|] == mentionFacets;
    assert facets[|facets| - |tags|..] == tagFacets;
  }
}
