/** The bearer token `bb_studio_<random>_<lookup>` (`apps/api_keys/services.py`), rendered once when a key is issued and
    parsed by every verification. */
module Tokens {
  import opened Prelude

  const TOKEN_PREFIX := "bb_studio_"

  const LOOKUP_LEN := 8

  datatype ParsedToken = ParsedToken(randomPart: string, lookupPrefix: string)

  /** The first eight hex digits of SHA-256, seen from outside: eight characters, none an underscore. */
  ghost predicate IsLookup(makeLookup: string -> string) {
    forall r :: |makeLookup(r)| == LOOKUP_LEN && '_' !in makeLookup(r)
  }

  /** The token that `issue_api_key` hands out. */
  function Render(randomPart: string, makeLookup: string -> string): string {
    TOKEN_PREFIX + randomPart + "_" + makeLookup(randomPart)
  }

  /** `s.rsplit("_", 1)`, or nothing when there is no underscore. */
  function SplitLast(s: string): Option<(string, string)> {
    if s == "" then None
    else
      var n := |s| - 1;
      if s[n] == '_' then Some((s[..n], ""))
      else match SplitLast(s[..n])
        case None => None
        case Some((head, tail)) => Some((head, tail + [s[n]]))
  }

  function Parse(raw: string, makeLookup: string -> string): Option<ParsedToken> {
    if !(TOKEN_PREFIX <= raw) then None
    else
      var parts := SplitLast(raw[|TOKEN_PREFIX|..]);
      if parts.None? then None
      else
        var (randomPart, lookup) := parts.value;
        if |lookup| != LOOKUP_LEN then None
        else if !(32 <= |randomPart| <= 64) then None
        else if makeLookup(randomPart) != lookup then None
        else Some(ParsedToken(randomPart, lookup))
  }

  lemma {:induction false} SplitLastSplits(s: string)
    ensures SplitLast(s).None? <==> '_' !in s
    ensures SplitLast(s).Some? ==>
              var (head, tail) := SplitLast(s).value; s == head + "_" + tail && '_' !in tail
  {
    if s != "" {
      var n := |s| - 1;
      assert s == s[..n] + [s[n]];
      if s[n] != '_' {
        SplitLastSplits(s[..n]);
      }
    }
  }

  lemma {:induction false} SplitLastFinds(head: string, tail: string)
    requires '_' !in tail
    ensures SplitLast(head + "_" + tail) == Some((head, tail))
  {
    var s := head + "_" + tail;
    if tail == "" {
      assert s[..|s| - 1] == head;
    } else {
      var n := |tail| - 1;
      assert s[..|s| - 1] == head + "_" + tail[..n];
      SplitLastFinds(head, tail[..n]);
      assert tail[..n] + [tail[n]] == tail;
    }
  }

  /** Parsing inverts rendering, also when the secret itself contains underscores. */
  lemma ParseInvertsRender(randomPart: string, makeLookup: string -> string)
    requires IsLookup(makeLookup) && 32 <= |randomPart| <= 64
    ensures Parse(Render(randomPart, makeLookup), makeLookup)
            == Some(ParsedToken(randomPart, makeLookup(randomPart)))
  {
    var raw := Render(randomPart, makeLookup);
    assert raw[|TOKEN_PREFIX|..] == randomPart + "_" + makeLookup(randomPart);
    SplitLastFinds(randomPart, makeLookup(randomPart));
  }

  /** Whatever is accepted renders back to itself, so no two spellings name one key. */
  lemma AcceptedTokenRendersToItself(raw: string, makeLookup: string -> string)
    requires Parse(raw, makeLookup).Some?
    ensures var p := Parse(raw, makeLookup).value;
            && Render(p.randomPart, makeLookup) == raw
            && p.lookupPrefix == makeLookup(p.randomPart)
            && 32 <= |p.randomPart| <= 64
  {
    SplitLastSplits(raw[|TOKEN_PREFIX|..]);
    assert raw == TOKEN_PREFIX + raw[|TOKEN_PREFIX|..];
  }

  /** The accepted tokens are exactly the renderings of secrets of 32 to 64 characters. */
  lemma AcceptedIffRendered(raw: string, makeLookup: string -> string)
    requires IsLookup(makeLookup)
    ensures Parse(raw, makeLookup).Some? <==> exists r :: 32 <= |r| <= 64 && raw == Render(r, makeLookup)
  {
    if Parse(raw, makeLookup).Some? {
      AcceptedTokenRendersToItself(raw, makeLookup);
    }
    if r :| 32 <= |r| <= 64 && raw == Render(r, makeLookup) {
      ParseInvertsRender(r, makeLookup);
    }
  }
}
