/** The YouTube helpers of ingest.py: `extract_youtube_video_id` (16-26), a
    leftmost regular-expression search over three patterns tried in order,
    and the title line parse of `_fetch_youtube_via_gemini` (448-453). */
module YouTube {
  import opened Wrappers
  import opened Text

  /** The character class `[0-9A-Za-z_-]`. */
  predicate IsIdChar(c: char) {
    ('0' <= c <= '9') || ('A' <= c <= 'Z') || ('a' <= c <= 'z') || c == '_' || c == '-'
  }

  const IdLength: nat := 11

  /** `[0-9A-Za-z_-]{11}` matches at position `i`. */
  predicate IdAt(s: string, i: nat) {
    i + IdLength <= |s| && forall j :: i <= j < i + IdLength ==> IsIdChar(s[j])
  }

  /** The literal `lit` occurs at position `i`. */
  predicate LiteralAt(s: string, i: nat, lit: string) {
    i + |lit| <= |s| && s[i..i + |lit|] == lit
  }

  /** The three patterns, in the order the source tries them:
      `(?:v=|\/)(id).*`, `(?:embed\/)(id)` and `(?:youtu\.be\/)(id)`. */
  datatype Pattern = VOrSlash | Embed | ShortLink

  const Patterns: seq<Pattern> := [VOrSlash, Embed, ShortLink]

  /** Where the captured group starts when the pattern matches at `p`
      (for the first pattern, `v=` is tried before `/`). */
  function GroupStart(pat: Pattern, s: string, p: nat): nat {
    match pat
      case VOrSlash => if LiteralAt(s, p, "v=") && IdAt(s, p + 2) then p + 2 else p + 1
      case Embed => p + 6
      case ShortLink => p + 9
  }

  predicate MatchAt(pat: Pattern, s: string, p: nat) {
    match pat
      case VOrSlash => (LiteralAt(s, p, "v=") && IdAt(s, p + 2)) || (LiteralAt(s, p, "/") && IdAt(s, p + 1))
      case Embed => LiteralAt(s, p, "embed/") && IdAt(s, p + 6)
      case ShortLink => LiteralAt(s, p, "youtu.be/") && IdAt(s, p + 9)
  }

  /** `match.group(1)` of a match at `p`. */
  function Group(pat: Pattern, s: string, p: nat): string
    requires MatchAt(pat, s, p)
  {
    var g := GroupStart(pat, s, p);
    s[g..g + IdLength]
  }

  /** `re.search`: the leftmost position at or after `p` where the pattern matches. */
  function SearchFrom(pat: Pattern, s: string, p: nat): (r: Option<nat>)
    ensures r.Some? ==> (p <= r.value && MatchAt(pat, s, r.value)
      && forall q :: p <= q < r.value ==> !MatchAt(pat, s, q))
    ensures r.None? ==> forall q :: p <= q ==> !MatchAt(pat, s, q)
    decreases |s| - p
  {
    if p >= |s| then None
    else if MatchAt(pat, s, p) then Some(p)
    else SearchFrom(pat, s, p + 1)
  }

  /** The group of the first pattern that matches anywhere in `url`. */
  function VideoIdOf(url: string): Option<string> {
    FirstGroup(Patterns, url)
  }

  function FirstGroup(pats: seq<Pattern>, url: string): Option<string> {
    if pats == [] then None
    else match SearchFrom(pats[0], url, 0)
      case Some(p) => Some(Group(pats[0], url, p))
      case None => FirstGroup(pats[1..], url)
  }

  /** `extract_youtube_video_id`: try each pattern in order and return the
      group of the leftmost match of the first pattern that matches. */
  method ExtractYoutubeVideoId(url: string) returns (id: Option<string>)
    ensures id == VideoIdOf(url)
    ensures id.Some? ==> |id.value| == IdLength && forall j :: 0 <= j < |id.value| ==> IsIdChar(id.value[j])
  {
    for k := 0 to |Patterns|
      invariant FirstGroup(Patterns, url) == FirstGroup(Patterns[k..], url)
    {
      var pat := Patterns[k];
      assert Patterns[k..][1..] == Patterns[k + 1..];
      var p := 0;
      while p < |url|
        invariant p <= |url|
        invariant SearchFrom(pat, url, 0) == SearchFrom(pat, url, p)
      {
        if MatchAt(pat, url, p) {
          id := Some(Group(pat, url, p));
          GroupShape(pat, url, p);
          return;
        }
        p := p + 1;
      }
    }
    id := None;
  }

  lemma GroupShape(pat: Pattern, s: string, p: nat)
    requires MatchAt(pat, s, p)
    ensures var g := Group(pat, s, p);
      |g| == IdLength && forall j :: 0 <= j < |g| ==> IsIdChar(g[j])
  {
    var st := GroupStart(pat, s, p);
    assert IdAt(s, st);
    forall j | 0 <= j < IdLength ensures IsIdChar(Group(pat, s, p)[j]) {
      assert Group(pat, s, p)[j] == s[st + j];
    }
  }

  /** Wherever `embed/` or `youtu.be/` is followed by an id, the `/` before
      the id already matches the first pattern. */
  lemma LaterPatternsImplyFirst(pat: Pattern, s: string, p: nat)
    requires pat != VOrSlash && MatchAt(pat, s, p)
    ensures MatchAt(VOrSlash, s, GroupStart(pat, s, p) - 1)
  {
    var g := GroupStart(pat, s, p);
    var lit := if pat == Embed then "embed/" else "youtu.be/";
    assert s[p..p + |lit|] == lit;
    assert s[g - 1] == lit[|lit| - 1] == '/';
    assert s[g - 1..g] == "/";
  }

  /** So the second and third patterns never decide the result: the video id
      is the group of the leftmost match of `(?:v=|\/)(id)`, and there is none
      exactly when that pattern matches nowhere. */
  lemma VideoIdIsFirstPattern(url: string)
    ensures VideoIdOf(url) == match SearchFrom(VOrSlash, url, 0)
      case Some(p) => Some(Group(VOrSlash, url, p))
      case None => None
  {
    assert Patterns[1..] == [Embed, ShortLink];
    assert Patterns[1..][1..] == [ShortLink];
    assert [ShortLink][1..] == [];
    if SearchFrom(VOrSlash, url, 0).None? {
      assert VideoIdOf(url) == FirstGroup([Embed, ShortLink], url);
      var r2 := SearchFrom(Embed, url, 0);
      if r2.Some? {
        LaterPatternsImplyFirst(Embed, url, r2.value);
        assert false;
      }
      assert VideoIdOf(url) == FirstGroup([ShortLink], url);
      var r3 := SearchFrom(ShortLink, url, 0);
      if r3.Some? {
        LaterPatternsImplyFirst(ShortLink, url, r3.value);
        assert false;
      }
    }
  }

  /** The id found follows `v=` or `/` in the URL, and no earlier position
      of the URL matches. */
  lemma VideoIdPosition(url: string)
    requires VideoIdOf(url).Some?
    ensures exists p: nat :: (MatchAt(VOrSlash, url, p)
      && VideoIdOf(url) == Some(Group(VOrSlash, url, p))
      && (forall q :: 0 <= q < p ==> !MatchAt(VOrSlash, url, q))
      && ((LiteralAt(url, p, "v=") && GroupStart(VOrSlash, url, p) == p + 2)
          || (LiteralAt(url, p, "/") && GroupStart(VOrSlash, url, p) == p + 1)))
  {
    VideoIdIsFirstPattern(url);
    var p := SearchFrom(VOrSlash, url, 0).value;
    if !(LiteralAt(url, p, "v=") && IdAt(url, p + 2)) {
      assert LiteralAt(url, p, "/");
    }
  }

  // ---- title line of the Gemini transcript ----

  const TitleTag: string := "제목:"

  /** The title carried by one line, when its stripped form starts with the tag. */
  predicate IsTitleLine(line: string) {
    StartsWith(Strip(line), TitleTag)
  }

  function TitleFromLine(line: string): string {
    Strip(ReplaceAll(Strip(line), TitleTag, ""))
  }

  /** The title from the first title line, or `""` when there is none. */
  function TitleOf(lines: seq<string>): string {
    if lines == [] then ""
    else if IsTitleLine(lines[0]) then TitleFromLine(lines[0])
    else TitleOf(lines[1..])
  }

  /** The loop over `content.split('\n')` that stops at the first title line. */
  method ParseTitle(content: string) returns (title: string)
    ensures title == TitleOf(SplitOn(content, '\n'))
  {
    var lines := SplitOn(content, '\n');
    title := "";
    for i := 0 to |lines|
      invariant TitleOf(lines) == TitleOf(lines[i..])
    {
      assert lines[i..][1..] == lines[i + 1..];
      if IsTitleLine(lines[i]) {
        title := TitleFromLine(lines[i]);
        return;
      }
    }
  }

  /** With no title line the title is empty. */
  lemma {:induction false} TitleOfNone(lines: seq<string>)
    requires forall i :: 0 <= i < |lines| ==> !IsTitleLine(lines[i])
    ensures TitleOf(lines) == ""
  {
    if lines != [] {
      assert forall i :: 0 <= i < |lines[1..]| ==> lines[1..][i] == lines[i + 1];
      TitleOfNone(lines[1..]);
    }
  }

  /** The title comes from the first title line. */
  lemma {:induction false} TitleOfFirst(lines: seq<string>, i: nat)
    requires i < |lines| && IsTitleLine(lines[i])
    requires forall j :: 0 <= j < i ==> !IsTitleLine(lines[j])
    ensures TitleOf(lines) == TitleFromLine(lines[i])
  {
    if i > 0 {
      assert lines[1..][i - 1] == lines[i];
      assert forall j :: 0 <= j < i - 1 ==> lines[1..][j] == lines[j + 1];
      TitleOfFirst(lines[1..], i - 1);
    }
  }

  /** The title never starts or ends with whitespace. */
  lemma {:induction false} TitleOfStripped(lines: seq<string>)
    ensures var t := TitleOf(lines); t == [] || (!IsSpace(t[0]) && !IsSpace(t[|t| - 1]))
  {
    if lines != [] {
      if IsTitleLine(lines[0]) {
        StripShape(ReplaceAll(Strip(lines[0]), TitleTag, ""));
      } else {
        TitleOfStripped(lines[1..]);
      }
    }
  }

  /** A title line holding nothing but the tag gives an empty title. */
  lemma TagOnlyLine()
    ensures TitleFromLine(TitleTag) == ""
  {
    assert StartsWith(TitleTag, TitleTag);
    assert TitleTag[|TitleTag|..] == [];
    assert Strip(TitleTag) == TitleTag by {
      assert NoSpace(TitleTag) by {
        forall i | 0 <= i < |TitleTag| ensures !IsSpace(TitleTag[i]) {
          assert TitleTag[i] == '제' || TitleTag[i] == '목' || TitleTag[i] == ':';
        }
      }
      StripNoSpace(TitleTag);
    }
  }
}
