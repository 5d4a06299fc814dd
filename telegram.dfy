/** tools/import_telegram_groups.py: turning a file of Telegram links into
    channel records.  A link is named after its channel (`t.me/NAME`), its
    join-chat or invite code, or failing those its URL path; the file is
    filtered down to the lines that look like Telegram links; and the import
    counts every link as imported, skipped or failed. */
module Telegram {
  import opened Wrappers
  import opened Text
  import opened Lists

  // ---------------------------------------------------------------------
  // The three searched patterns

  /** `t\.me/([^/]+)$`, `t\.me/joinchat/([^/]+)` and `t\.me/\+([^/]+)`. */
  datatype Pattern = Public | JoinChat | Invite

  /** The literal text each pattern starts with. */
  function Lead(p: Pattern): string {
    match p
    case Public => "t.me/"
    case JoinChat => "t.me/joinchat/"
    case Invite => "t.me/+"
  }

  /** `[^/]+` matched greedily from index `i`: the characters up to the next
      `/` or the end. */
  function Segment(s: string, i: nat): (r: string)
    requires i <= |s|
    ensures i + |r| <= |s| && r == s[i..i + |r|]
    ensures '/' !in r
    ensures i + |r| == |s| || s[i + |r|] == '/'
    decreases |s| - i
  {
    if i == |s| || s[i] == '/' then [] else [s[i]] + Segment(s, i + 1)
  }

  /** Pattern `p` matches `s` starting at index `i`. */
  predicate MatchesAt(s: string, p: Pattern, i: nat) {
    var k := i + |Lead(p)|;
    && InfixAt(s, Lead(p), i) && k < |s| && s[k] != '/'
    && (p == Public ==> k + |Segment(s, k)| == |s|)
  }

  /** The captured group of a match at `i`. */
  function Group(s: string, p: Pattern, i: nat): string
    requires MatchesAt(s, p, i)
  {
    Segment(s, i + |Lead(p)|)
  }

  /** `re.search`: the leftmost index from `i` on where `p` matches. */
  function Search(s: string, p: Pattern, i: nat): (r: Option<nat>)
    ensures r.Some? ==> i <= r.value && MatchesAt(s, p, r.value)
    decreases |s| + 1 - i
  {
    if |s| < i then None
    else if MatchesAt(s, p, i) then Some(i)
    else Search(s, p, i + 1)
  }

  // ---------------------------------------------------------------------
  // `urllib.parse.urlparse(url).path`

  /** `s.find(c)`, with `|s|` for "not found". */
  function IndexOf(s: string, c: char): (i: nat)
    ensures i <= |s| && c !in s[..i]
    ensures forall k | 0 <= k < i :: s[k] != c
    ensures i < |s| ==> s[i] == c
  {
    if s == [] || s[0] == c then 0
    else
      var j := IndexOf(s[1..], c);
      assert s[1..][..j] == s[1..j + 1];
      1 + j
  }

  /** `s.rfind(c)`, for a character that occurs in `s`. */
  function LastIndexOf(s: string, c: char): (i: nat)
    requires c in s
    ensures i < |s| && s[i] == c && c !in s[i + 1..]
  {
    if s[|s| - 1] == c then |s| - 1 else LastIndexOf(s[..|s| - 1], c)
  }

  predicate IsAsciiLetter(c: char) {
    'a' <= c <= 'z' || 'A' <= c <= 'Z'
  }

  /** The characters a URL scheme may consist of. */
  predicate SchemeChar(c: char) {
    IsAsciiLetter(c) || '0' <= c <= '9' || c == '+' || c == '-' || c == '.'
  }

  /** The scheme, lower-cased, and what follows its `:`; no scheme when the
      text before the first `:` is not one. */
  function SplitScheme(url: string): (r: (string, string))
    ensures |r.1| <= |url| && r.1 == url[|url| - |r.1|..]
  {
    var i := IndexOf(url, ':');
    if 0 < i < |url| && IsAsciiLetter(url[0]) && forall k | 0 <= k < i :: SchemeChar(url[k])
    then (LowerAscii(url[..i]), url[i + 1..])
    else ("", url)
  }

  /** `s.split(c, 1)[0]` */
  function Before(s: string, c: char): (r: string)
    ensures |r| <= |s| && r == s[..|r|] && c !in r
  {
    s[..IndexOf(s, c)]
  }

  /** The schemes whose paths may carry `;parameters`. */
  const UsesParams: set<string> := {"", "ftp", "hdl", "prospero", "http", "imap", "https", "shttp",
                                     "rtsp", "rtsps", "rtspu", "sip", "sips", "mms", "sftp", "tel"}

  /** The path once `;parameters` after its last segment are cut off. */
  function WithoutParams(u: string): (r: string)
    ensures |r| <= |u| && r == u[..|r|]
  {
    if '/' in u then
      var r := LastIndexOf(u, '/');
      var j := IndexOf(u[r..], ';');
      if j == |u[r..]| then u else u[..r + j]
    else Before(u, ';')
  }

  /** The characters `urlsplit` strips from the front of a URL: the C0
      control characters and the space. */
  predicate ControlOrSpace(c: char) {
    c <= ' '
  }

  /** `url.lstrip(...)` of the C0 control characters and the space. */
  function LStripControl(s: string): string {
    if s != [] && ControlOrSpace(s[0]) then LStripControl(s[1..]) else s
  }

  /** The characters `urlsplit` deletes wherever they occur. */
  predicate Unsafe(c: char) {
    c == '\t' || c == '\r' || c == '\n'
  }

  /** `url.replace(c, "")` for the tab, the carriage return and the line feed. */
  function RemoveUnsafe(s: string): (r: string)
    ensures forall k | 0 <= k < |r| :: !Unsafe(r[k])
  {
    if s == [] then []
    else (if Unsafe(s[0]) then [] else [s[0]]) + RemoveUnsafe(s[1..])
  }

  /** Where the network location after `//` ends: at the first `/`, `?` or
      `#`, or at the end. */
  function NetlocEnd(r: string): (d: nat)
    ensures d <= |r|
  {
    var d := IndexOf(r, '/');
    var d := if IndexOf(r, '?') < d then IndexOf(r, '?') else d;
    if IndexOf(r, '#') < d then IndexOf(r, '#') else d
  }

  /** The network location and what follows it; no network location unless
      the text starts with `//`. */
  function SplitNetloc(rest: string): (r: (string, string))
    ensures |r.1| <= |rest| && r.1 == rest[|rest| - |r.1|..]
  {
    if StartsWith(rest, "//") then
      var r := rest[2..];
      (r[..NetlocEnd(r)], r[NetlocEnd(r)..])
    else ("", rest)
  }

  /** A network location with a `[` and no `]`, or the reverse, which
      `urlsplit` rejects with `ValueError`. */
  predicate Unbalanced(netloc: string) {
    ('[' in netloc && ']' !in netloc) || (']' in netloc && '[' !in netloc)
  }

  /** The characters a path never holds: the ones deleted up front, and the
      `?` and `#` that end it. */
  predicate PathChar(c: char) {
    !Unsafe(c) && c != '?' && c != '#'
  }

  /** What `urlsplit` works on: the URL with its leading control characters
      and spaces stripped and its tabs, carriage returns and line feeds
      deleted. */
  function Sanitized(url: string): (r: string)
    ensures forall k | 0 <= k < |r| :: !Unsafe(r[k])
  {
    RemoveUnsafe(LStripControl(url))
  }

  /** The path out of what follows the network location: the text before
      any `#` and `?`, less the `;parameters` when the scheme allows them. */
  function PathOf(scheme: string, after: string): (path: string)
    ensures |path| <= |after| && path == after[..|path|]
    ensures forall k | 0 <= k < |path| :: path[k] != '?' && path[k] != '#'
  {
    var b := Before(after, '#');
    var u := Before(b, '?');
    var path := if scheme in UsesParams && ';' in u then WithoutParams(u) else u;
    assert forall k | 0 <= k < |path| :: path[k] == u[k] == b[k] && u[k] in u && b[k] in b;
    path
  }

  /** The path of a sanitized URL, or `None` when `urlsplit` raises on it. */
  function SanitizedPath(clean: string): (r: Option<string>)
    requires forall k | 0 <= k < |clean| :: !Unsafe(clean[k])
    ensures r.Some? ==> forall k | 0 <= k < |r.value| :: PathChar(r.value[k])
  {
    var (scheme, rest) := SplitScheme(clean);
    var (netloc, after) := SplitNetloc(rest);
    if Unbalanced(netloc) then None
    else
      var path := PathOf(scheme, after);
      PathCharsOf(clean, after, path);
      Some(path)
  }

  /** `urlparse(url).path`, or `None` when `urlparse` raises. */
  function UrlPath(url: string): (r: Option<string>)
    ensures r.Some? ==> forall k | 0 <= k < |r.value| :: PathChar(r.value[k])
  {
    SanitizedPath(Sanitized(url))
  }

  /** A path is a prefix of the text after the network location, which is
      a suffix of the sanitized URL: it keeps that URL's characters. */
  lemma PathCharsOf(clean: string, after: string, path: string)
    requires forall k | 0 <= k < |clean| :: !Unsafe(clean[k])
    requires |after| <= |clean| && after == clean[|clean| - |after|..]
    requires |path| <= |after| && path == after[..|path|]
    requires forall k | 0 <= k < |path| :: path[k] != '?' && path[k] != '#'
    ensures forall k | 0 <= k < |path| :: PathChar(path[k])
  {
    forall k | 0 <= k < |path|
      ensures PathChar(path[k])
    {
      assert path[k] == after[k] == clean[|clean| - |after| + k];
    }
  }

  /** Leading control characters and spaces do not change the path. */
  lemma UrlPathIgnoresLeading(c: char, url: string)
    requires ControlOrSpace(c)
    ensures UrlPath([c] + url) == UrlPath(url)
  {
    assert Sanitized([c] + url) == Sanitized(url) by {
      assert ([c] + url)[1..] == url;
    }
  }

  /** Deleting the tabs, carriage returns and line feeds commutes with
      concatenation. */
  lemma {:induction false} RemoveUnsafeAppend(a: string, b: string)
    ensures RemoveUnsafe(a + b) == RemoveUnsafe(a) + RemoveUnsafe(b)
  {
    if a == [] {
      assert a + b == b;
    } else {
      assert (a + b)[0] == a[0] && (a + b)[1..] == a[1..] + b;
      RemoveUnsafeAppend(a[1..], b);
      var h := if Unsafe(a[0]) then [] else [a[0]];
      assert RemoveUnsafe(a + b) == h + (RemoveUnsafe(a[1..]) + RemoveUnsafe(b));
      assert RemoveUnsafe(a) == h + RemoveUnsafe(a[1..]);
    }
  }

  /** A text without tabs, carriage returns or line feeds is kept whole. */
  lemma {:induction false} RemoveUnsafeNone(s: string)
    requires forall k | 0 <= k < |s| :: !Unsafe(s[k])
    ensures RemoveUnsafe(s) == s
  {
    if s != [] {
      RemoveUnsafeNone(s[1..]);
    }
  }

  /** Stripping the front of `a + x` strips `a` first, and `x` too when
      nothing of `a` is left. */
  lemma {:induction false} LStripControlAppend(a: string, x: string)
    ensures LStripControl(a + x)
         == if LStripControl(a) == [] then LStripControl(x) else LStripControl(a) + x
  {
    if a == [] {
      assert a + x == x;
    } else {
      assert (a + x)[0] == a[0];
      if ControlOrSpace(a[0]) {
        assert (a + x)[1..] == a[1..] + x;
        LStripControlAppend(a[1..], x);
      }
    }
  }

  /** A tab, carriage return or line feed after `l` is deleted. */
  lemma RemoveUnsafeSkip(l: string, c: char, b: string)
    requires Unsafe(c)
    ensures RemoveUnsafe(l + ([c] + b)) == RemoveUnsafe(l + b)
  {
    RemoveUnsafeAppend(l, [c] + b);
    RemoveUnsafeAppend([c], b);
    RemoveUnsafeAppend(l, b);
    assert RemoveUnsafe([c]) == [];
  }

  /** A tab, carriage return or line feed anywhere in a URL is gone once
      the URL is sanitized. */
  lemma SanitizedDropsUnsafe(a: string, c: char, b: string)
    requires Unsafe(c)
    ensures Sanitized(a + [c] + b) == Sanitized(a + b)
  {
    LStripControlAppend(a, [c] + b);
    LStripControlAppend(a, b);
    assert a + [c] + b == a + ([c] + b);
    var l := LStripControl(a);
    if l == [] {
      assert LStripControl([c] + b) == LStripControl(b) by {
        assert ([c] + b)[1..] == b;
      }
    } else {
      RemoveUnsafeSkip(l, c, b);
    }
  }


  /** A tab, carriage return or line feed anywhere in a URL is deleted
      before the path is taken. */
  lemma UrlPathDropsUnsafe(a: string, c: char, b: string)
    requires Unsafe(c)
    ensures UrlPath(a + [c] + b) == UrlPath(a + b)
  {
    SanitizedDropsUnsafe(a, c, b);
  }


  /** `s.find(c)` is `i` when `c` is at `i`, or `i` is the end, and `c`
      does not occur before it. */
  lemma IndexOfAt(s: string, c: char, i: nat)
    requires i <= |s| && (i < |s| ==> s[i] == c)
    requires forall k | 0 <= k < i :: s[k] != c
    ensures IndexOf(s, c) == i
  {
  }

  /** `s.find(c)` is at least `i` when `c` does not occur before `i`. */
  lemma IndexOfFrom(s: string, c: char, i: nat)
    requires i <= |s|
    requires forall k | 0 <= k < i :: s[k] != c
    ensures i <= IndexOf(s, c)
  {
  }

  /** A URL that starts with neither a control character nor a space, and
      holds no tab, carriage return or line feed, is left as it is. */
  lemma SanitizedKeeps(url: string)
    requires url == [] || !ControlOrSpace(url[0])
    requires forall k | 0 <= k < |url| :: !Unsafe(url[k])
    ensures Sanitized(url) == url
  {
    RemoveUnsafeNone(url);
  }

  /** A scheme of scheme characters starting with a letter is split off at
      its `:`, and lower-cased. */
  lemma SplitSchemeOf(scheme: string, rest: string)
    requires scheme != [] && IsAsciiLetter(scheme[0])
    requires forall k | 0 <= k < |scheme| :: SchemeChar(scheme[k])
    ensures SplitScheme(scheme + ":" + rest) == (LowerAscii(scheme), rest)
  {
    var url := scheme + ":" + rest;
    IndexOfAt(url, ':', |scheme|);
    assert url[..|scheme|] == scheme && url[|scheme| + 1..] == rest;
  }

  /** A network location ends at the first `/`, `?` or `#`. */
  predicate NetlocStop(c: char) {
    c == '/' || c == '?' || c == '#'
  }

  /** The network location ends at the first `/`, `?` or `#`. */
  lemma NetlocEndAt(r: string, i: nat)
    requires i <= |r| && (i < |r| ==> NetlocStop(r[i]))
    requires forall k | 0 <= k < i :: !NetlocStop(r[k])
    ensures NetlocEnd(r) == i
  {
    IndexOfFrom(r, '/', i);
    IndexOfFrom(r, '?', i);
    IndexOfFrom(r, '#', i);
    if i < |r| {
      IndexOfAt(r, r[i], i);
    }
  }

  /** After `//`, the network location runs up to the first `/`, `?` or `#`. */
  lemma SplitNetlocOf(host: string, after: string)
    requires forall k | 0 <= k < |host| :: !NetlocStop(host[k])
    requires after == [] || NetlocStop(after[0])
    ensures SplitNetloc("//" + host + after) == (host, after)
  {
    var rest := "//" + host + after;
    var r := rest[2..];
    assert r == host + after;
    assert forall k | 0 <= k < |host| :: r[k] == host[k];
    if after != [] {
      assert r[|host|] == after[0];
    }
    NetlocEndAt(r, |host|);
    assert r[..|host|] == host && r[|host|..] == after;
  }


  /** A URL whose network location holds a `[` without a `]`, or the
      reverse, has no path: `urlsplit` raises. */
  lemma UrlPathRejectsUnbalanced(scheme: string, host: string, after: string)
    requires scheme != [] && IsAsciiLetter(scheme[0])
    requires forall k | 0 <= k < |scheme| :: SchemeChar(scheme[k])
    requires forall k | 0 <= k < |host| :: !NetlocStop(host[k]) && !Unsafe(host[k])
    requires after == [] || NetlocStop(after[0])
    requires forall k | 0 <= k < |after| :: !Unsafe(after[k])
    requires Unbalanced(host)
    ensures UrlPath(scheme + "://" + host + after) == None
  {
    var rest := "//" + host + after;
    var url := scheme + ":" + rest;
    assert scheme + "://" + host + after == url;
    assert forall k | 0 <= k < |url| :: !Unsafe(url[k]) by {
      forall k | 0 <= k < |url|
        ensures !Unsafe(url[k])
      {
        if k < |scheme| {
          assert url[k] == scheme[k];
        } else if k < |scheme| + 3 {
        } else if k < |scheme| + 3 + |host| {
          assert url[k] == host[k - |scheme| - 3];
        } else {
          assert url[k] == after[k - |scheme| - 3 - |host|];
        }
      }
    }
    assert url[0] == scheme[0];
    SanitizedKeeps(url);
    SplitSchemeOf(scheme, rest);
    SplitNetlocOf(host, after);
  }

  /** An unbalanced `[` in the network location makes `urlparse` raise. */
  lemma UrlPathUnbalanced()
    ensures UrlPath("http://[t.me/a/b") == None
  {
    assert "http://[t.me/a/b" == "http" + "://" + "[t.me" + "/a/b";
    UrlPathRejectsUnbalanced("http", "[t.me", "/a/b");
  }

  // ---------------------------------------------------------------------
  // `extract_channel_name`

  /** The name made from a URL path (lines 61-66). */
  function PathName(path: string): string {
    var p := StripChar(path, '/');
    if p == [] then "unknown_channel" else Take(ReplaceChar(p, '/', '_'), 50)
  }

  /** `extract_channel_name(url)`, or `None` when `urlparse` raises. A name
      never holds `/`, so it can serve as a store key. */
  function ChannelName(url: string): (r: Option<string>)
    ensures r.Some? ==> '/' !in r.value
  {
    NameOf(RStripChar(url, '/'))
  }

  /** The name of a URL once its trailing slashes are gone (lines 40-66). */
  function NameOf(u: string): (r: Option<string>)
    ensures r.Some? ==> '/' !in r.value
  {
    match Search(u, Public, 0)
    case Some(i) =>
      var name := Group(u, Public, i);
      AtDroppedNoSlash(name);
      Some(if StartsWith(name, "@") then name[1..] else name)
    case None =>
      match Search(u, JoinChat, 0)
      case Some(i) =>
        CodeNameNoSlash("joinchat_", Group(u, JoinChat, i));
        Some("joinchat_" + Take(Group(u, JoinChat, i), 10))
      case None =>
        match Search(u, Invite, 0)
        case Some(i) =>
          CodeNameNoSlash("invite_", Group(u, Invite, i));
          Some("invite_" + Take(Group(u, Invite, i), 10))
        case None =>
          match UrlPath(u)
          case None => None
          case Some(path) =>
            PathNameNoSlash(path);
            Some(PathName(path))
  }

  // ---------------------------------------------------------------------
  // Properties of the name

  /** The search passes over an index where the pattern does not match. */
  lemma SearchSkip(s: string, p: Pattern, i: nat)
    requires i <= |s| && !MatchesAt(s, p, i)
    ensures Search(s, p, i) == Search(s, p, i + 1)
  {
  }

  /** The search skips a stretch where the pattern does not match. */
  lemma SearchSkipTo(s: string, p: Pattern, i: nat, k: nat)
    requires i <= k <= |s|
    requires forall j | i <= j < k :: !MatchesAt(s, p, j)
    ensures Search(s, p, i) == Search(s, p, k)
  {
    forall j | i <= j < k
      ensures Search(s, p, j) == Search(s, p, j + 1)
    {
      SearchSkip(s, p, j);
    }
    ChainEqual(j => Search(s, p, j), i, k);
  }


  /** The search reports the first match at or after `i`. */
  lemma SearchFirst(s: string, p: Pattern, i: nat, k: nat)
    requires i <= k && MatchesAt(s, p, k)
    requires forall j | i <= j < k :: !MatchesAt(s, p, j)
    ensures Search(s, p, i) == Some(k)
  {
    SearchSkipTo(s, p, i, k);
  }

  /** A failed search means the pattern matches nowhere from `i` on. */
  lemma {:induction false} SearchMisses(s: string, p: Pattern, i: nat, j: nat)
    requires Search(s, p, i).None? && i <= j
    ensures !MatchesAt(s, p, j)
    decreases j - i
  {
    if |s| < i {
      assert |s| < j + |Lead(p)|;
    } else if i < j {
      SearchMisses(s, p, i + 1, j);
    }
  }

  /** A pattern that matches nowhere from `i` on is not found. */
  lemma {:induction false} SearchNone(s: string, p: Pattern, i: nat)
    requires forall j | i <= j :: !MatchesAt(s, p, j)
    ensures Search(s, p, i).None?
    decreases |s| + 1 - i
  {
    if |s| >= i {
      SearchNone(s, p, i + 1);
    }
  }

  /** A segment stops at the first `/` after its start. */
  lemma {:induction false} SegmentStops(s: string, k: nat, m: nat)
    requires k <= m < |s| && s[m] == '/'
    ensures k + |Segment(s, k)| <= m
    decreases m - k
  {
    if s[k] != '/' {
      SegmentStops(s, k + 1, m);
    }
  }

  /** The public pattern cannot match before a `/` that follows its lead:
      its name would have to run over it. */
  lemma NoPublicBeforeSlash(s: string, i: nat, m: nat)
    requires i + 5 <= m < |s| && s[m] == '/'
    ensures !MatchesAt(s, Public, i)
  {
    SegmentStops(s, i + 5, m);
  }

  /** A public match before another one is impossible. */
  lemma PublicNotBefore(s: string, i: nat, j: nat)
    requires i < j && MatchesAt(s, Public, j)
    ensures !MatchesAt(s, Public, i)
  {
    NoPublicBeforeSlash(s, i, j + 4);
  }

  /** The public pattern, anchored at the end, can match in one place only. */
  lemma PublicUnique(s: string, i: nat, j: nat)
    requires MatchesAt(s, Public, i) && MatchesAt(s, Public, j)
    ensures i == j
  {
    if i < j {
      PublicNotBefore(s, i, j);
    } else if j < i {
      PublicNotBefore(s, j, i);
    }
  }

  /** `rstrip('/')` twice is `rstrip('/')` once. */
  lemma RStripSlashIdempotent(s: string)
    ensures RStripChar(RStripChar(s, '/'), '/') == RStripChar(s, '/')
  {
  }

  /** Trailing slashes never matter: the name of a URL is the name of the
      URL without them. */
  lemma ChannelIgnoresSlashes(url: string)
    ensures ChannelName(url) == ChannelName(RStripChar(url, '/'))
  {
    RStripSlashIdempotent(url);
  }

  lemma RStripSlashes(s: string, n: nat)
    requires s != [] && s[|s| - 1] != '/'
    ensures RStripChar(s + seq(n, _ => '/'), '/') == s
    decreases n
  {
    if n > 0 {
      var t := s + seq(n, _ => '/');
      assert t[..|t| - 1] == s + seq(n - 1, _ => '/');
      RStripSlashes(s, n - 1);
    } else {
      assert s + seq(0, _ => '/') == s;
    }
  }

  /** A segment with no `/` in the rest of the text runs to the end. */
  lemma SegmentAll(s: string, i: nat)
    requires i <= |s| && '/' !in s[i..]
    ensures Segment(s, i) == s[i..]
  {
  }

  /** The public pattern finds `t.me/NAME` at the end of a text. */
  lemma PublicSearch(pre: string, name: string)
    requires name != [] && '/' !in name
    ensures var s := pre + "t.me/" + name;
      Search(s, Public, 0) == Some(|pre|) && Group(s, Public, |pre|) == name
  {
    var s := pre + "t.me/" + name;
    var i := |pre|;
    assert s[i..i + 5] == "t.me/";
    assert s[i + 5..] == name;
    SegmentAll(s, i + 5);
    forall j | 0 <= j < i
      ensures !MatchesAt(s, Public, j)
    {
      PublicNotBefore(s, j, i);
    }
    SearchFirst(s, Public, 0, i);
  }

  /** A public link `…t.me/NAME`, followed by any number of slashes, is named
      NAME without one leading `@`. */
  lemma ChannelPublic(pre: string, name: string, n: nat)
    requires name != [] && '/' !in name
    ensures ChannelName(pre + "t.me/" + name + seq(n, _ => '/'))
         == Some(if name[0] == '@' then name[1..] else name)
  {
    var s := pre + "t.me/" + name;
    assert s[|s| - 1] == name[|name| - 1];
    RStripSlashes(s, n);
    PublicSearch(pre, name);
  }

  /** A bare invite link `…t.me/+CODE` is caught by the public pattern and
      named `+CODE`; the `invite_` form is not produced for it. */
  lemma ChannelBareInvite(pre: string, code: string, n: nat)
    requires code != [] && '/' !in code
    ensures ChannelName(pre + "t.me/+" + code + seq(n, _ => '/')) == Some("+" + code)
  {
    assert pre + "t.me/+" + code == pre + "t.me/" + ("+" + code);
    ChannelPublic(pre, "+" + code, n);
  }

  /** Every pattern starts with `t.me/`. */
  lemma MatchHasLead(s: string, p: Pattern, j: nat)
    ensures MatchesAt(s, p, j) ==> InfixAt(s, "t.me/", j)
  {
    if MatchesAt(s, p, j) {
      assert Lead(p)[..5] == "t.me/";
      assert s[j..j + 5] == s[j..j + |Lead(p)|][..5];
    }
  }

  /** `t.me/` occurs in `pre + lead + rest` only where `lead` starts, when
      neither `pre` nor `rest` holds it and no `t.` starts inside `lead`. */
  lemma TmeOnlyAt(pre: string, lead: string, rest: string, j: nat)
    requires !Contains(pre, "t.me/") && !Contains(rest, "t.me/")
    requires StartsWith(lead, "t.me/")
    requires forall d | 1 <= d < |lead| && lead[d] == 't' :: d + 1 < |lead| && lead[d + 1] != '.'
    requires j != |pre|
    ensures !InfixAt(pre + lead + rest, "t.me/", j)
  {
    var s := pre + lead + rest;
    if j + 5 <= |s| {
      if j < |pre| {
        if j + 5 <= |pre| {
          assert s[j..j + 5] == pre[j..j + 5];
          assert !InfixAt(pre, "t.me/", j);
        } else {
          assert s[|pre|] == lead[0] == 't';
          assert s[j..j + 5][|pre| - j] == s[|pre|];
        }
      } else if j < |pre| + |lead| {
        var d := j - |pre|;
        assert s[j..j + 5][0] == s[j] == lead[d];
        if lead[d] == 't' {
          assert s[j..j + 5][1] == s[j + 1] == lead[d + 1];
        }
      } else {
        var r := j - |pre| - |lead|;
        assert s[j..j + 5] == rest[r..r + 5];
        assert !InfixAt(rest, "t.me/", r);
      }
    }
  }

  /** A text without a dot holds no `t.me/`. */
  lemma NoTmeWithoutDot(s: string)
    requires '.' !in s
    ensures !Contains(s, "t.me/")
  {
    forall i | 0 <= i <= |s|
      ensures !InfixAt(s, "t.me/", i)
    {
      if i + 5 <= |s| {
        assert s[i..i + 5][1] == s[i + 1] && s[i + 1] in s;
      }
    }
  }

  /** No pattern matches `pre + lead + rest` except where `lead` starts. */
  lemma MatchOnlyAt(pre: string, lead: string, rest: string, p: Pattern, j: nat)
    requires !Contains(pre, "t.me/") && !Contains(rest, "t.me/")
    requires StartsWith(lead, "t.me/")
    requires forall d | 1 <= d < |lead| && lead[d] == 't' :: d + 1 < |lead| && lead[d + 1] != '.'
    requires j != |pre|
    ensures !MatchesAt(pre + lead + rest, p, j)
  {
    TmeOnlyAt(pre, lead, rest, j);
    MatchHasLead(pre + lead + rest, p, j);
  }

  /** A segment runs up to the next `/` or to the end. */
  lemma SegmentTo(s: string, i: nat, m: nat)
    requires i <= m <= |s| && '/' !in s[i..m] && (m == |s| || s[m] == '/')
    ensures Segment(s, i) == s[i..m]
  {
    var r := Segment(s, i);
    forall k | i <= k < m
      ensures s[k] != '/'
    {
      assert s[i..m][k - i] == s[k];
    }
    forall k | i <= k < i + |r|
      ensures s[k] != '/'
    {
      assert r[k - i] == s[k];
    }
  }

  /** With no public match, the first join-chat match names the URL. */
  lemma NameOfJoinChat(u: string, i: nat)
    requires Search(u, Public, 0).None? && Search(u, JoinChat, 0) == Some(i)
    ensures NameOf(u) == Some("joinchat_" + Take(Group(u, JoinChat, i), 10))
  {
  }

  /** With neither a public nor a join-chat match, the first invite match
      names the URL. */
  lemma NameOfInvite(u: string, i: nat)
    requires Search(u, Public, 0).None? && Search(u, JoinChat, 0).None? && Search(u, Invite, 0) == Some(i)
    ensures NameOf(u) == Some("invite_" + Take(Group(u, Invite, i), 10))
  {
  }

  /** With no match of any pattern, the URL path names the URL. */
  lemma NameOfPath(u: string)
    requires Search(u, Public, 0).None? && Search(u, JoinChat, 0).None? && Search(u, Invite, 0).None?
    ensures NameOf(u) == if UrlPath(u).None? then None else Some(PathName(UrlPath(u).value))
  {
  }

  /** In a join-chat link the public pattern matches nowhere: the code
      would have to run over the `/` after `joinchat`. */
  lemma JoinChatNoPublic(pre: string, code: string, tail: string)
    requires !Contains(pre, "t.me/") && !Contains(code + tail, "t.me/")
    ensures Search(pre + "t.me/joinchat/" + (code + tail), Public, 0).None?
  {
    var lead := "t.me/joinchat/";
    var u := pre + lead + (code + tail);
    var i := |pre|;
    assert u[i + 13] == '/';
    forall j: nat
      ensures !MatchesAt(u, Public, j)
    {
      if j == i {
        SegmentStops(u, i + 5, i + 13);
      } else {
        MatchOnlyAt(pre, lead, code + tail, Public, j);
      }
    }
    SearchNone(u, Public, 0);
  }

  /** The middle and the end of a three-part text. */
  lemma ThreeParts(pre: string, mid: string, post: string)
    ensures var s := pre + mid + post;
      s[|pre|..|pre| + |mid|] == mid && s[|pre| + |mid|..] == post
  {
  }

  /** A text of a code without `/`, then nothing or a `/`, has the code as
      its first segment. */
  lemma CodeSegment(code: string, tail: string)
    requires code != [] && '/' !in code
    requires tail == [] || tail[0] == '/'
    ensures Segment(code + tail, 0) == code
  {
    var w := code + tail;
    assert w[..|code|] == code;
    if tail != [] {
      assert w[|code|] == tail[0];
    }
    SegmentTo(w, 0, |code|);
  }

  /** A segment depends only on the text from its start. */
  lemma {:induction false} SegmentFrom(s: string, k: nat)
    requires k <= |s|
    ensures Segment(s, k) == Segment(s[k..], 0)
    decreases |s| - k
  {
    if k < |s| && s[k] != '/' {
      SegmentFrom(s, k + 1);
      assert s[k + 1..] == s[k..][1..];
      SegmentShift(s[k..]);
    }
  }

  /** Dropping the first character of a text that does not start with `/`
      drops it from the first segment. */
  lemma SegmentShift(t: string)
    requires t != [] && t[0] != '/'
    ensures Segment(t, 0) == [t[0]] + Segment(t[1..], 0)
  {
    SegmentTail(t, 1);
  }

  /** A segment from `k` in a text is the segment from `k - 1` in the text
      without its first character. */
  lemma {:induction false} SegmentTail(t: string, k: nat)
    requires 1 <= k <= |t|
    ensures Segment(t, k) == Segment(t[1..], k - 1)
    decreases |t| - k
  {
    if k < |t| && t[k] != '/' {
      assert t[1..][k - 1] == t[k];
      SegmentTail(t, k + 1);
    }
  }

  /** A code after `lead` in `pre + lead + code + tail` is captured when
      the code holds no `/` and the tail is empty or starts with one. */
  lemma CodeAfter(pre: string, lead: string, code: string, tail: string)
    requires code != [] && '/' !in code
    requires tail == [] || tail[0] == '/'
    ensures var u := pre + lead + (code + tail);
      var k := |pre| + |lead|;
      k < |u| && u[|pre|..k] == lead && u[k] != '/' && Segment(u, k) == code
  {
    var w := code + tail;
    var u := pre + lead + w;
    var k := |pre| + |lead|;
    assert u[|pre|..k] == lead && u[k..] == w by {
      ThreeParts(pre, lead, w);
    }
    assert u[k] == u[k..][0] == code[0];
    assert Segment(u, k) == code by {
      CodeSegment(code, tail);
      SegmentFrom(u, k);
    }
  }

  /** In a join-chat link the join-chat pattern matches where the link
      starts, and captures the code. */
  lemma JoinChatGroup(pre: string, code: string, tail: string)
    requires code != [] && '/' !in code
    requires tail == [] || tail[0] == '/'
    ensures var u := pre + "t.me/joinchat/" + (code + tail);
      MatchesAt(u, JoinChat, |pre|) && Group(u, JoinChat, |pre|) == code
  {
    CodeAfter(pre, "t.me/joinchat/", code, tail);
  }

  /** In a join-chat link the join-chat pattern first matches where the
      link starts, and captures the code. */
  lemma JoinChatFound(pre: string, code: string, tail: string)
    requires !Contains(pre, "t.me/") && !Contains(code + tail, "t.me/")
    requires code != [] && '/' !in code
    requires tail == [] || tail[0] == '/'
    ensures var u := pre + "t.me/joinchat/" + (code + tail);
      Search(u, JoinChat, 0) == Some(|pre|) && Group(u, JoinChat, |pre|) == code
  {
    var lead := "t.me/joinchat/";
    var u := pre + lead + (code + tail);
    var i := |pre|;
    JoinChatGroup(pre, code, tail);
    forall j | 0 <= j < i
      ensures !MatchesAt(u, JoinChat, j)
    {
      MatchOnlyAt(pre, lead, code + tail, JoinChat, j);
    }
    SearchFirst(u, JoinChat, 0, i);
  }

  /** A join-chat link `…t.me/joinchat/CODE`, followed by any further path
      and any trailing slashes, is named after the first ten characters of
      its code, when `t.me/` occurs nowhere else in it. */
  lemma ChannelJoinChat(pre: string, code: string, tail: string, n: nat)
    requires !Contains(pre, "t.me/") && !Contains(code + tail, "t.me/")
    requires code != [] && '/' !in code
    requires tail == [] || (tail[0] == '/' && tail[|tail| - 1] != '/')
    ensures ChannelName(pre + "t.me/joinchat/" + code + tail + seq(n, _ => '/'))
         == Some("joinchat_" + Take(code, 10))
  {
    var u := pre + "t.me/joinchat/" + (code + tail);
    assert pre + "t.me/joinchat/" + code + tail == u;
    assert u[|u| - 1] == if tail == [] then code[|code| - 1] else tail[|tail| - 1];
    RStripSlashes(u, n);
    JoinChatNoPublic(pre, code, tail);
    JoinChatFound(pre, code, tail);
    NameOfJoinChat(u, |pre|);
  }

  /** In an invite link followed by a further path, the public pattern
      matches nowhere: the code is followed by a `/`. */
  lemma InviteNoPublic(pre: string, code: string, tail: string)
    requires !Contains(pre, "t.me/") && !Contains(code + tail, "t.me/")
    requires tail != [] && tail[0] == '/'
    ensures Search(pre + "t.me/+" + (code + tail), Public, 0).None?
  {
    var lead := "t.me/+";
    var u := pre + lead + (code + tail);
    var i := |pre|;
    var m := i + 6 + |code|;
    assert u[m] == '/';
    forall j: nat
      ensures !MatchesAt(u, Public, j)
    {
      if j == i {
        SegmentStops(u, i + 5, m);
      } else {
        MatchOnlyAt(pre, lead, code + tail, Public, j);
      }
    }
    SearchNone(u, Public, 0);
  }

  /** In an invite link the join-chat pattern matches nowhere: `+` is not
      `j`. */
  lemma InviteNoJoinChat(pre: string, code: string, tail: string)
    requires !Contains(pre, "t.me/") && !Contains(code + tail, "t.me/")
    ensures Search(pre + "t.me/+" + (code + tail), JoinChat, 0).None?
  {
    var lead := "t.me/+";
    var u := pre + lead + (code + tail);
    var i := |pre|;
    assert u[i + 5] == '+';
    forall j: nat
      ensures !MatchesAt(u, JoinChat, j)
    {
      if j == i {
        if i + 14 <= |u| {
          assert u[i..i + 14][5] == u[i + 5];
        }
      } else {
        MatchOnlyAt(pre, lead, code + tail, JoinChat, j);
      }
    }
    SearchNone(u, JoinChat, 0);
  }

  /** In an invite link the invite pattern matches where the link starts,
      and captures the code. */
  lemma InviteGroup(pre: string, code: string, tail: string)
    requires code != [] && '/' !in code
    requires tail != [] && tail[0] == '/'
    ensures var u := pre + "t.me/+" + (code + tail);
      MatchesAt(u, Invite, |pre|) && Group(u, Invite, |pre|) == code
  {
    CodeAfter(pre, "t.me/+", code, tail);
  }

  /** In an invite link the invite pattern first matches where the link
      starts, and captures the code. */
  lemma InviteFound(pre: string, code: string, tail: string)
    requires !Contains(pre, "t.me/") && !Contains(code + tail, "t.me/")
    requires code != [] && '/' !in code
    requires tail != [] && tail[0] == '/'
    ensures var u := pre + "t.me/+" + (code + tail);
      Search(u, Invite, 0) == Some(|pre|) && Group(u, Invite, |pre|) == code
  {
    var lead := "t.me/+";
    var u := pre + lead + (code + tail);
    var i := |pre|;
    InviteGroup(pre, code, tail);
    forall j | 0 <= j < i
      ensures !MatchesAt(u, Invite, j)
    {
      MatchOnlyAt(pre, lead, code + tail, Invite, j);
    }
    SearchFirst(u, Invite, 0, i);
  }

  /** An invite link `…t.me/+CODE` followed by a further path, and any
      trailing slashes, is named after the first ten characters of its code,
      when `t.me/` occurs nowhere else in it. */
  lemma ChannelInvite(pre: string, code: string, tail: string, n: nat)
    requires !Contains(pre, "t.me/") && !Contains(code + tail, "t.me/")
    requires code != [] && '/' !in code
    requires tail != [] && tail[0] == '/' && tail[|tail| - 1] != '/'
    ensures ChannelName(pre + "t.me/+" + code + tail + seq(n, _ => '/'))
         == Some("invite_" + Take(code, 10))
  {
    var u := pre + "t.me/+" + (code + tail);
    assert pre + "t.me/+" + code + tail == u;
    assert u[|u| - 1] == tail[|tail| - 1];
    RStripSlashes(u, n);
    InviteNoPublic(pre, code, tail);
    InviteNoJoinChat(pre, code, tail);
    InviteFound(pre, code, tail);
    NameOfInvite(u, |pre|);
  }

  /** No pattern matches the URL `http://[t.me/a/b`: its `t.me/` is
      followed by a further path, and neither by `joinchat/` nor by `+`. */
  lemma UnbalancedNoMatch(p: Pattern)
    ensures Search("http://[t.me/a/b", p, 0).None?
  {
    var u := "http://[t.me/a/b";
    assert u == "http://[" + "t.me/" + "a/b";
    NoTmeWithoutDot("http://[");
    NoTmeWithoutDot("a/b");
    forall j: nat
      ensures !MatchesAt(u, p, j)
    {
      if j != 8 {
        MatchOnlyAt("http://[", "t.me/", "a/b", p, j);
      } else {
        SegmentStops(u, 13, 14);
        assert u[8..14][5] == u[13];
      }
    }
    SearchNone(u, p, 0);
  }

  /** A URL whose network location has an unbalanced `[` gets no name:
      `urlparse` raises. */
  lemma ChannelUnbalanced()
    ensures ChannelName("http://[t.me/a/b") == None
  {
    var u := "http://[t.me/a/b";
    assert RStripChar(u, '/') == u;
    UnbalancedNoMatch(Public);
    UnbalancedNoMatch(JoinChat);
    UnbalancedNoMatch(Invite);
    NameOfPath(u);
    UrlPathUnbalanced();
  }

  /** A prefix of a text without `/` has none either. */
  lemma TakeNoSlash(g: string, n: nat)
    requires '/' !in g
    ensures '/' !in Take(g, n)
  {
    var t := Take(g, n);
    assert forall k | 0 <= k < |t| :: t[k] == g[k];
  }

  /** A name taken from the URL path has at most 50 characters and no `/`,
      or is the placeholder when the path is only slashes. */
  lemma PathNameShape(path: string)
    ensures var r := PathName(path);
      if StripChar(path, '/') == [] then r == "unknown_channel"
      else 0 < |r| <= 50 && '/' !in r
  {
    var p := StripChar(path, '/');
    if p != [] {
      var q := ReplaceChar(p, '/', '_');
      assert forall k | 0 <= k < |q| :: q[k] != '/';
      TakeNoSlash(q, 50);
    }
  }

  /** Neither kind of name made from a URL path contains `/`. */
  lemma PathNameNoSlash(path: string)
    ensures '/' !in PathName(path)
  {
    PathNameShape(path);
  }

  /** Dropping one leading `@` keeps a name free of `/`. */
  lemma AtDroppedNoSlash(g: string)
    requires '/' !in g
    ensures '/' !in (if StartsWith(g, "@") then g[1..] else g)
  {
    if StartsWith(g, "@") {
      assert forall k | 0 <= k < |g| - 1 :: g[1..][k] == g[k + 1];
    }
  }

  /** A code name `lead + code[:10]` is free of `/` when both parts are. */
  lemma CodeNameNoSlash(lead: string, g: string)
    requires '/' !in lead && '/' !in g
    ensures '/' !in lead + Take(g, 10)
  {
    TakeNoSlash(g, 10);
  }

  // ---------------------------------------------------------------------
  // `read_telegram_urls`

  /** Line 80: the line mentions `t.me`. */
  predicate LooksTelegram(line: string) {
    Contains(line, "t.me") || StartsWith(line, "https://t.me") || StartsWith(line, "http://t.me")
  }

  /** The two prefix tests add nothing to the `in` test. */
  lemma LooksTelegramContains(line: string)
    ensures LooksTelegram(line) <==> Contains(line, "t.me")
  {
    if StartsWith(line, "https://t.me") {
      assert InfixAt(line, "t.me", 8);
    }
    if StartsWith(line, "http://t.me") {
      assert InfixAt(line, "t.me", 7);
    }
  }

  /** A stripped line that is kept (lines 75-81). */
  predicate Keep(line: string) {
    line != [] && !StartsWith(line, "#") && LooksTelegram(line)
  }

  /** The URLs `read_telegram_urls` collects from `lines`. */
  function Urls(lines: seq<string>): seq<string> {
    Collect(lines, Strip, Keep)
  }

  /** The URLs of a file are exactly its stripped lines that are non-empty,
      not comments and mention `t.me`. */
  lemma UrlsExactly(lines: seq<string>)
    ensures forall u :: u in Urls(lines) <==>
      exists i | 0 <= i < |lines| :: u == Strip(lines[i]) && u != [] && u[0] != '#' && Contains(u, "t.me")
  {
    CollectSound(lines, Strip, Keep);
    forall u | u in Urls(lines)
      ensures exists i | 0 <= i < |lines| :: u == Strip(lines[i]) && u != [] && u[0] != '#' && Contains(u, "t.me")
    {
      LooksTelegramContains(u);
    }
    forall i | 0 <= i < |lines| && Keep(Strip(lines[i]))
      ensures Strip(lines[i]) in Urls(lines)
    {
      CollectComplete(lines, Strip, Keep, i);
    }
    forall u | exists i | 0 <= i < |lines| :: u == Strip(lines[i]) && u != [] && u[0] != '#' && Contains(u, "t.me")
      ensures u in Urls(lines)
    {
      var i :| 0 <= i < |lines| && u == Strip(lines[i]) && u != [] && u[0] != '#' && Contains(u, "t.me");
      LooksTelegramContains(u);
    }
  }

  /** One more line adds its stripped form when it is kept. */
  lemma UrlsNext(lines: seq<string>, i: nat)
    requires i < |lines|
    ensures Urls(lines[..i + 1]) == Urls(lines[..i]) + (if Keep(Strip(lines[i])) then [Strip(lines[i])] else [])
  {
    assert lines[..i + 1][..i] == lines[..i];
  }

  /** `read_telegram_urls(filename)` on a file with text `content`. */
  method ReadTelegramUrls(content: string) returns (urls: seq<string>)
    ensures urls == Urls(FileLines(content))
  {
    var lines := FileLines(content);
    urls := [];
    var i := 0;
    while i < |lines|
      invariant 0 <= i <= |lines|
      invariant urls == Urls(lines[..i])
    {
      UrlsNext(lines, i);
      var line := Strip(lines[i]);
      if line == [] || StartsWith(line, "#") {
      } else if LooksTelegram(line) {
        urls := urls + [line];
      }
      i := i + 1;
    }
    assert lines[..i] == lines;
  }

  // ---------------------------------------------------------------------
  // `import_telegram_groups`

  /** What database 5 holds under a channel name: a record with its link, or
      a value that is not JSON (reading it raises). */
  datatype Stored = Channel(link: string) | Unreadable

  type Channels = map<string, Stored>

  /** What `teladder(name, url)` returns, or that it raised. */
  datatype AddResult = Returned(n: int) | Failed

  /** `teladder`, which is not part of this model: its effect on the store and
      its result. */
  type Adder = (Channels, string, string) -> (Channels, AddResult)

  datatype Tally = Tally(imported: nat, skipped: nat, errors: nat)

  /** The run ends early, with `finished` false, when a URL cannot be named
      (`urlparse` raises at line 121) or an unreadable record is met (line
      131); both raise outside any `try`. */
  datatype Run = Run(db: Channels, tally: Tally, finished: bool)

  /** One round of the loop at lines 119-157, with `answer` what the operator
      types if asked to overwrite. */
  function ImportOne(db: Channels, t: Tally, name: string, url: string, answer: string, teladder: Adder): Run {
    if name in db && db[name].Unreadable? then Run(db, t, false)
    else if name in db && db[name].link == url then Run(db, t.(skipped := t.skipped + 1), true)
    else if name in db && LowerAscii(answer) != "y" then Run(db, t.(skipped := t.skipped + 1), true)
    else
      var (db', r) := teladder(db, name, url);
      if r == Returned(1) then Run(db', t.(imported := t.imported + 1), true)
      else Run(db', t.(errors := t.errors + 1), true)
  }

  /** The loop at lines 119-157 over `urls`, not in a dry run. */
  function ImportAll(db: Channels, urls: seq<string>, answers: seq<string>, teladder: Adder): Run
    requires |answers| == |urls|
    decreases |urls|
  {
    if urls == [] then Run(db, Tally(0, 0, 0), true)
    else
      var n := |urls| - 1;
      var before := ImportAll(db, urls[..n], answers[..n], teladder);
      if !before.finished then before
      else
        match ChannelName(urls[n])
        case None => Run(before.db, before.tally, false)
        case Some(name) => ImportOne(before.db, before.tally, name, urls[n], answers[n], teladder)
  }

  /** Once the loop has stopped, later URLs change nothing. */
  lemma {:induction false} ImportAllStopped(db: Channels, urls: seq<string>, answers: seq<string>, teladder: Adder, k: nat)
    requires |answers| == |urls| && k <= |urls|
    requires !ImportAll(db, urls[..k], answers[..k], teladder).finished
    ensures ImportAll(db, urls, answers, teladder) == ImportAll(db, urls[..k], answers[..k], teladder)
    decreases |urls|
  {
    if k < |urls| {
      var n := |urls| - 1;
      assert urls[..n][..k] == urls[..k] && answers[..n][..k] == answers[..k];
      ImportAllStopped(db, urls[..n], answers[..n], teladder, k);
      assert !ImportAll(db, urls[..n], answers[..n], teladder).finished;
    } else {
      assert urls[..k] == urls && answers[..k] == answers;
    }
  }

  /** A finished import counts every URL exactly once. */
  lemma {:induction false} ImportAllCounts(db: Channels, urls: seq<string>, answers: seq<string>, teladder: Adder)
    requires |answers| == |urls|
    ensures var r := ImportAll(db, urls, answers, teladder);
      r.finished ==> r.tally.imported + r.tally.skipped + r.tally.errors == |urls|
    decreases |urls|
  {
    if urls != [] {
      var n := |urls| - 1;
      ImportAllCounts(db, urls[..n], answers[..n], teladder);
    }
  }

  /** A URL already stored under its name is skipped without touching the
      store or asking the operator. */
  lemma ImportKnown(db: Channels, t: Tally, name: string, url: string, answer: string, teladder: Adder)
    requires name in db && db[name] == Channel(url)
    ensures ImportOne(db, t, name, url, answer, teladder) == Run(db, t.(skipped := t.skipped + 1), true)
  {
  }

  /** A name stored with another link is overwritten only on a `y` or `Y`
      answer. */
  lemma ImportOverwrite(db: Channels, t: Tally, name: string, url: string, answer: string, teladder: Adder)
    requires name in db && db[name].Channel? && db[name].link != url
    ensures var r := ImportOne(db, t, name, url, answer, teladder);
      r.db != db ==> answer == "y" || answer == "Y"
  {
    if LowerAscii(answer) == "y" {
      assert answer[0] == 'y' || answer[0] == 'Y';
    }
  }

  /** The URL can be named: `urlparse` does not raise on it. */
  predicate Named(url: string) {
    ChannelName(url).Some?
  }

  /** Every URL can be named: a dry run goes through without raising. */
  predicate AllNamed(urls: seq<string>) {
    AllOf(urls, Named)
  }

  /** `AllNamed` holds exactly when each URL can be named. */
  lemma AllNamedEvery(urls: seq<string>)
    ensures AllNamed(urls) <==> forall i | 0 <= i < |urls| :: ChannelName(urls[i]).Some?
  {
    AllOfEvery(urls, Named);
  }

  /** One more URL, after a loop that has not stopped, is named and
      imported, or stops the loop when it cannot be named. */
  lemma ImportAllNext(db: Channels, urls: seq<string>, answers: seq<string>, teladder: Adder, i: nat)
    requires |answers| == |urls| && i < |urls|
    requires ImportAll(db, urls[..i], answers[..i], teladder).finished
    ensures var before := ImportAll(db, urls[..i], answers[..i], teladder);
      var name := ChannelName(urls[i]);
      ImportAll(db, urls[..i + 1], answers[..i + 1], teladder)
      == if name.None? then Run(before.db, before.tally, false)
         else ImportOne(before.db, before.tally, name.value, urls[i], answers[i], teladder)
  {
    assert urls[..i + 1][..i] == urls[..i] && answers[..i + 1][..i] == answers[..i];
  }

  /** `import_telegram_groups(filename, dry_run)` on the URLs the file
      yields, with the operator's answers and `teladder` given. A dry run
      only names the URLs: it writes nothing and counts nothing, and stops
      at the first URL that cannot be named. */
  method ImportTelegramGroups(db: Channels, urls: seq<string>, dryRun: bool, answers: seq<string>,
                              teladder: Adder)
    returns (run: Run)
    requires |answers| == |urls|
    ensures dryRun ==> run == Run(db, Tally(0, 0, 0), AllNamed(urls))
    ensures !dryRun ==> run == ImportAll(db, urls, answers, teladder)
  {
    run := Run(db, Tally(0, 0, 0), true);
    var i := 0;
    assert urls[..0] == [] && answers[..0] == [];
    while i < |urls|
      invariant 0 <= i <= |urls|
      invariant dryRun ==> run == Run(db, Tally(0, 0, 0), true) && AllNamed(urls[..i])
      invariant !dryRun ==> run.finished && run == ImportAll(db, urls[..i], answers[..i], teladder)
    {
      assert urls[..i + 1][..i] == urls[..i];
      var channelName := ChannelName(urls[i]);
      if !dryRun {
        ImportAllNext(db, urls, answers, teladder, i);
      }
      if channelName.None? {
        run := run.(finished := false);
        if dryRun {
          AllOfStopped(urls, Named, i + 1);
        } else {
          ImportAllStopped(db, urls, answers, teladder, i + 1);
        }
        return;
      }
      if !dryRun {
        run := ImportOne(run.db, run.tally, channelName.value, urls[i], answers[i], teladder);
        assert run == ImportAll(db, urls[..i + 1], answers[..i + 1], teladder);
        if !run.finished {
          ImportAllStopped(db, urls, answers, teladder, i + 1);
          return;
        }
      }
      i := i + 1;
    }
    assert urls[..i] == urls && answers[..i] == answers;
  }

}
