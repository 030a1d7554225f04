/** renderMessageContent of components/ai-chat-widget.tsx: a chat message
    is split around URLs (`/(https?:\/\/[^\s]+)/g`), each URL becomes a
    link with a friendly label and its trailing punctuation moved outside
    the link, and the remaining text is split around `**bold**` runs
    (the global pattern `\*\*(.*?)\*\*`). The structure produced is modelled; the markup
    is not. */
module ChatRender {
  import opened Optional
  import Text

  // ---------------------------------------------------------------------
  // URL tokens

  /** The reference notion of a URL token: a scheme prefix, at least one
      further character, and no whitespace at all. */
  predicate IsUrlToken(t: string)
  {
    && ((|t| > 7 && t[..7] == "http://") || (|t| > 8 && t[..8] == "https://"))
    && forall k :: 0 <= k < |t| ==> !Text.IsWhitespace(t[k])
  }

  /** Length of the longest run of non-whitespace starting at `j`. */
  function NonSpaceRun(s: string, j: nat): (n: nat)
    requires j <= |s|
    ensures j + n <= |s|
    ensures forall k :: j <= k < j + n ==> !Text.IsWhitespace(s[k])
    ensures j + n < |s| ==> Text.IsWhitespace(s[j + n])
    decreases |s| - j
  {
    if j == |s| || Text.IsWhitespace(s[j]) then 0 else 1 + NonSpaceRun(s, j + 1)
  }

  /** Length of the match of `https?:\/\/[^\s]+` anchored at `i`, or 0.
      The optional `s` is tried first; without it the literal `:` cannot
      match an `s`, so a failed `https://` never falls back. */
  function UrlMatchAt(s: string, i: nat): (n: nat)
    requires i <= |s|
    ensures i + n <= |s|
  {
    if Text.OccursAt(s, "https://", i) && NonSpaceRun(s, i + 8) > 0 then 8 + NonSpaceRun(s, i + 8)
    else if Text.OccursAt(s, "http://", i) && NonSpaceRun(s, i + 7) > 0 then 7 + NonSpaceRun(s, i + 7)
    else 0
  }

  /** The first position at or after `from` where a URL match starts, or
      `|s|`. */
  function FirstUrl(s: string, from: nat): (p: nat)
    requires from <= |s|
    ensures from <= p <= |s|
    ensures p < |s| ==> UrlMatchAt(s, p) > 0
    ensures forall q :: from <= q < p ==> UrlMatchAt(s, q) == 0
    decreases |s| - from
  {
    if from == |s| then |s|
    else if UrlMatchAt(s, from) > 0 then from
    else FirstUrl(s, from + 1)
  }

  /** `urlRegex.test(part)` with `lastIndex` at 0 (the handler resets it
      after every success, and a failure resets it too): the scan finds a
      match somewhere. */
  predicate ContainsUrl(s: string)
  {
    FirstUrl(s, 0) < |s|
  }

  /** The scan agrees with the plain reading "some position starts a
      match", in both directions. */
  lemma ContainsUrlIff(s: string)
    ensures ContainsUrl(s) <==> exists q :: 0 <= q < |s| && UrlMatchAt(s, q) > 0
  {
    var p := FirstUrl(s, 0);
    if p < |s| {
      assert UrlMatchAt(s, p) > 0;
    } else {
      assert forall q :: 0 <= q < |s| ==> UrlMatchAt(s, q) == 0;
    }
  }

  /** A match found in a prefix of `s` is a match in `s`. */
  lemma UrlMatchInPrefix(s: string, p: nat, q: nat)
    requires q < p <= |s|
    requires UrlMatchAt(s[..p], q) > 0
    ensures UrlMatchAt(s, q) > 0
  {
    var t := s[..p];
    if Text.OccursAt(t, "https://", q) && NonSpaceRun(t, q + 8) > 0 {
      assert t[q..q + 8] == s[q..q + 8];
      assert t[q + 8] == s[q + 8];
    } else {
      assert t[q..q + 7] == s[q..q + 7];
      assert t[q + 7] == s[q + 7];
    }
  }

  /** The URL matched at `p` is a URL token in the reference sense. */
  lemma MatchIsUrlToken(s: string, p: nat)
    requires p <= |s| && UrlMatchAt(s, p) > 0
    ensures IsUrlToken(s[p..p + UrlMatchAt(s, p)])
  {
    var t := s[p..p + UrlMatchAt(s, p)];
    if Text.OccursAt(s, "https://", p) && NonSpaceRun(s, p + 8) > 0 {
      assert t[..8] == s[p..p + 8];
    } else {
      assert t[..7] == s[p..p + 7];
    }
    forall k | 0 <= k < |t| ensures !Text.IsWhitespace(t[k]) {
      assert t[k] == s[p + k];
    }
  }

  function Concat(parts: seq<string>): string
  {
    if parts == [] then "" else parts[0] + Concat(parts[1..])
  }

  predicate UrlsAtOdd(parts: seq<string>)
  {
    forall i :: 0 <= i < |parts| && i % 2 == 1 ==> IsUrlToken(parts[i])
  }

  predicate NoUrlAtEven(parts: seq<string>)
  {
    forall i :: 0 <= i < |parts| && i % 2 == 0 ==> !ContainsUrl(parts[i])
  }

  predicate SpaceAfterUrls(parts: seq<string>)
  {
    forall i :: 0 <= i < |parts| - 1 && i % 2 == 1 && parts[i + 1] != [] ==>
      Text.IsWhitespace(parts[i + 1][0])
  }

  /** The shape of a URL split: the URLs sit at the odd indices, the text
      between them at the even ones, and a URL runs up to whitespace or
      the end (the match is greedy). */
  predicate UrlShape(parts: seq<string>)
  {
    |parts| % 2 == 1 && UrlsAtOdd(parts) && NoUrlAtEven(parts) && SpaceAfterUrls(parts)
  }

  lemma UrlShapeCons(x: string, u: string, rest: seq<string>)
    requires !ContainsUrl(x) && IsUrlToken(u) && UrlShape(rest)
    requires rest[0] != [] ==> Text.IsWhitespace(rest[0][0])
    ensures UrlShape([x, u] + rest)
  {
    var parts := [x, u] + rest;
    assert |parts| == |rest| + 2;
    forall i | 0 <= i < |parts| && i % 2 == 1 ensures IsUrlToken(parts[i]) {
      if i > 1 {
        assert parts[i] == rest[i - 2];
      }
    }
    forall i | 0 <= i < |parts| && i % 2 == 0 ensures !ContainsUrl(parts[i]) {
      if i > 0 {
        assert parts[i] == rest[i - 2];
      }
    }
    forall i | 0 <= i < |parts| - 1 && i % 2 == 1 && parts[i + 1] != []
      ensures Text.IsWhitespace(parts[i + 1][0])
    {
      assert parts[i + 1] == rest[i - 1];
      if i > 1 {
        assert parts[i] == rest[i - 2];
      }
    }
  }

  lemma ConcatCons(x: string, u: string, rest: seq<string>)
    ensures Concat([x, u] + rest) == x + u + Concat(rest)
  {
    assert ([x, u] + rest)[1..] == [u] + rest;
    assert ([u] + rest)[1..] == rest;
  }

  /** `text.split(urlRegex)`: the capture group is the whole match, so
      every URL is kept as a part of its own. */
  function SplitUrls(s: string): (parts: seq<string>)
    ensures UrlShape(parts)
    ensures Concat(parts) == s
    decreases |s|
  {
    var p := FirstUrl(s, 0);
    if p == |s| then
      assert [s][1..] == [];
      [s]
    else
      var e := p + UrlMatchAt(s, p);
      var rest := SplitUrls(s[e..]);
      SplitUrlsPieces(s, p, rest);
      UrlShapeCons(s[..p], s[p..e], rest);
      SplitUrlsConcat(s, p, e, rest);
      [s[..p], s[p..e]] + rest
  }

  /** The three facts that make a URL split of `s` extend the split of what
      follows the first match. */
  lemma SplitUrlsPieces(s: string, p: nat, rest: seq<string>)
    requires p == FirstUrl(s, 0) < |s|
    requires |rest| >= 1 && Concat(rest) == s[p + UrlMatchAt(s, p)..]
    ensures !ContainsUrl(s[..p])
    ensures IsUrlToken(s[p..p + UrlMatchAt(s, p)])
    ensures rest[0] != [] ==> Text.IsWhitespace(rest[0][0])
  {
    NoUrlBefore(s, p);
    MatchIsUrlToken(s, p);
    MatchEndsAtSpace(s, p);
    RestStartsWithSpace(s, p + UrlMatchAt(s, p), rest);
  }

  lemma SplitUrlsConcat(s: string, p: nat, e: nat, rest: seq<string>)
    requires p <= e <= |s| && Concat(rest) == s[e..]
    ensures Concat([s[..p], s[p..e]] + rest) == s
  {
    ConcatCons(s[..p], s[p..e], rest);
    assert s == s[..p] + s[p..e] + s[e..];
  }

  /** A URL match stops at whitespace or at the end of the string. */
  lemma MatchEndsAtSpace(s: string, p: nat)
    requires p <= |s| && UrlMatchAt(s, p) > 0
    ensures p + UrlMatchAt(s, p) < |s| ==> Text.IsWhitespace(s[p + UrlMatchAt(s, p)])
  {
  }

  /** The text before the first match holds no match. */
  lemma NoUrlBefore(s: string, p: nat)
    requires p == FirstUrl(s, 0)
    ensures !ContainsUrl(s[..p])
  {
    var r := FirstUrl(s[..p], 0);
    if r < p {
      UrlMatchInPrefix(s, p, r);
      assert false;
    }
  }

  /** What follows a greedy URL match starts with whitespace, if anything. */
  lemma RestStartsWithSpace(s: string, e: nat, rest: seq<string>)
    requires 0 < e <= |s| && Concat(rest) == s[e..]
    requires e < |s| ==> Text.IsWhitespace(s[e])
    ensures rest != [] && rest[0] != [] ==> Text.IsWhitespace(rest[0][0])
  {
    if rest != [] && rest[0] != [] {
      ConcatHead(rest);
    }
  }

  /** The first part's characters open the concatenation. */
  lemma ConcatHead(parts: seq<string>)
    requires parts != [] && parts[0] != []
    ensures Concat(parts) != [] && Concat(parts)[0] == parts[0][0]
  {
  }

  // ---------------------------------------------------------------------
  // Trailing punctuation and labels

  predicate IsClosingPunct(c: char)
  {
    c in ".,;:!?)"
  }

  /** `part.replace(/[.,;:!?)]+$/, "")`: the maximal trailing run of
      punctuation is removed. */
  function StripPunct(s: string): (r: string)
    ensures r <= s
    ensures forall k :: |r| <= k < |s| ==> IsClosingPunct(s[k])
    ensures r == [] || !IsClosingPunct(r[|r| - 1])
  {
    if s == [] || !IsClosingPunct(s[|s| - 1]) then s else StripPunct(s[..|s| - 1])
  }

  /** The label table, looked up by the cleaned URL. Every key starts with
      "https://", so no inherited object property can be hit. */
  function FriendlyName(url: string): (r: Option<string>)
    ensures r.Some? ==> r.value != ""
  {
    if url == "https://facebook.com/ontriq" || url == "https://www.facebook.com/ontriq" then Some("Facebook")
    else if url == "https://twitter.com/ontriq" || url == "https://www.twitter.com/ontriq" then Some("Twitter/X")
    else if url == "https://instagram.com/ontriq" || url == "https://www.instagram.com/ontriq" then Some("Instagram")
    else if url == "https://linkedin.com/company/ontriq" || url == "https://www.linkedin.com/company/ontriq" then Some("LinkedIn")
    else if url == "https://www.ontriq.com/contact" || url == "https://ontriq.com/contact" then Some("Contact Page")
    else None
  }

  /** `u => new URL(u).hostname`, `None` when the constructor throws. */
  type HostOf = string -> Option<string>

  /** The link label. The host's first "www." is dropped wherever
      it occurs. */
  function DisplayName(clean: string, hostname: HostOf): (shown: string)
    ensures FriendlyName(clean).Some? ==> shown == FriendlyName(clean).value
    ensures FriendlyName(clean).None? && hostname(clean).None? ==> shown == clean
    ensures (FriendlyName(clean).None? && hostname(clean).Some? &&
             Text.IndexOf(hostname(clean).value, "www.") < 0) ==> shown == hostname(clean).value
  {
    match FriendlyName(clean)
    case Some(name) => name
    case None =>
      match hostname(clean)
      case Some(host) => Text.ReplaceFirst(host, "www.", "")
      case None => clean
  }

  // ---------------------------------------------------------------------
  // Bold runs

  /** Position of the closing `**` for a lazy `(.*?)` started at `k`, or
      -1 when a line terminator (which `.` does not match) or the end of
      the string comes first. */
  function ClosingAt(s: string, k: nat): (e: int)
    requires k <= |s|
    ensures e == -1 || (k <= e && Text.OccursAt(s, "**", e))
    ensures e >= 0 ==> forall j :: k <= j < e ==> !Text.IsLineTerminator(s[j]) && !Text.OccursAt(s, "**", j)
    decreases |s| - k
  {
    if k + 2 > |s| then -1
    else if Text.OccursAt(s, "**", k) then k
    else if Text.IsLineTerminator(s[k]) then -1
    else ClosingAt(s, k + 1)
  }

  /** Where the bold match starting at `i` closes, or -1. */
  function BoldMatchAt(s: string, i: nat): (e: int)
    requires i <= |s|
    ensures e == -1 || (i + 2 <= e && e + 2 <= |s|)
  {
    if Text.OccursAt(s, "**", i) then ClosingAt(s, i + 2) else -1
  }

  function FirstBold(s: string, from: nat): (p: nat)
    requires from <= |s|
    ensures from <= p <= |s|
    ensures p < |s| ==> BoldMatchAt(s, p) >= 0
    ensures forall q :: from <= q < p ==> BoldMatchAt(s, q) < 0
    decreases |s| - from
  {
    if from == |s| then |s|
    else if BoldMatchAt(s, from) >= 0 then from
    else FirstBold(s, from + 1)
  }

  /** Whether the global bold pattern matches anywhere in `s`. */
  predicate ContainsBold(s: string)
  {
    FirstBold(s, 0) < |s|
  }

  lemma ContainsBoldIff(s: string)
    ensures ContainsBold(s) <==> exists q :: 0 <= q < |s| && BoldMatchAt(s, q) >= 0
  {
    var p := FirstBold(s, 0);
    if p < |s| {
      assert BoldMatchAt(s, p) >= 0;
    } else {
      assert forall q :: 0 <= q < |s| ==> BoldMatchAt(s, q) < 0;
    }
  }

  /** A closing found inside a prefix is found the same way in `s`. */
  lemma {:induction false} ClosingInPrefix(s: string, p: nat, k: nat)
    requires k <= p <= |s|
    requires ClosingAt(s[..p], k) >= 0
    ensures ClosingAt(s, k) == ClosingAt(s[..p], k)
    decreases p - k
  {
    var t := s[..p];
    assert t[k] == s[k];
    assert k + 2 <= p ==> t[k..k + 2] == s[k..k + 2];
    if !Text.OccursAt(t, "**", k) {
      ClosingInPrefix(s, p, k + 1);
    }
  }

  lemma BoldMatchInPrefix(s: string, p: nat, q: nat)
    requires q < p <= |s|
    requires BoldMatchAt(s[..p], q) >= 0
    ensures BoldMatchAt(s, q) >= 0
  {
    assert Text.OccursAt(s[..p], "**", q);
    assert s[..p][q..q + 2] == s[q..q + 2];
    ClosingInPrefix(s, p, q + 2);
  }

  /** The text before the first bold match holds no match. */
  lemma NoBoldBefore(s: string, p: nat)
    requires p == FirstBold(s, 0)
    ensures !ContainsBold(s[..p])
  {
    var r := FirstBold(s[..p], 0);
    if r < p {
      BoldMatchInPrefix(s, p, r);
      assert false;
    }
  }

  /** Reassembles a bold split: the odd parts get their `**` back. */
  function Rejoin(parts: seq<string>): string
  {
    if |parts| < 2 then Concat(parts)
    else parts[0] + "**" + parts[1] + "**" + Rejoin(parts[2..])
  }

  predicate NoLineTerminator(t: string)
  {
    forall j :: 0 <= j < |t| ==> !Text.IsLineTerminator(t[j])
  }

  predicate NoDoubleStar(t: string)
  {
    forall j :: 0 <= j < |t| ==> !Text.OccursAt(t, "**", j)
  }

  /** What a lazy `(.*?)` can capture: no line terminator, and no `**`. */
  predicate PlainInner(t: string)
  {
    NoLineTerminator(t) && NoDoubleStar(t)
  }

  predicate InnerAtOdd(parts: seq<string>)
  {
    forall i :: 0 <= i < |parts| && i % 2 == 1 ==> PlainInner(parts[i])
  }

  predicate NoBoldAtEven(parts: seq<string>)
  {
    forall i :: 0 <= i < |parts| && i % 2 == 0 ==> !ContainsBold(parts[i])
  }

  /** The shape of a bold split: the inner texts sit at the odd indices,
      hold no line terminator and, the match being lazy, no `**`; the text
      between them holds no complete bold run. */
  predicate BoldShape(parts: seq<string>)
  {
    |parts| % 2 == 1 && InnerAtOdd(parts) && NoBoldAtEven(parts)
  }

  lemma BoldShapeCons(x: string, inner: string, rest: seq<string>)
    requires !ContainsBold(x) && PlainInner(inner) && BoldShape(rest)
    ensures BoldShape([x, inner] + rest)
  {
    var parts := [x, inner] + rest;
    assert |parts| == |rest| + 2;
    forall i | 0 <= i < |parts| && i % 2 == 1 ensures PlainInner(parts[i]) {
      if i > 1 {
        assert parts[i] == rest[i - 2];
      }
    }
    forall i | 0 <= i < |parts| && i % 2 == 0 ensures !ContainsBold(parts[i]) {
      if i > 0 {
        assert parts[i] == rest[i - 2];
      }
    }
  }

  /** `part.split(boldRegex)`: the captured inner text at the odd indices. */
  function SplitBold(s: string): (parts: seq<string>)
    ensures BoldShape(parts)
    ensures Rejoin(parts) == s
    decreases |s|
  {
    var p := FirstBold(s, 0);
    if p == |s| then
      assert [s][1..] == [];
      assert Concat([s]) == s + Concat([]);
      [s]
    else
      var e := BoldMatchAt(s, p);
      var rest := SplitBold(s[e + 2..]);
      InnerIsPlain(s, p);
      NoBoldBefore(s, p);
      BoldShapeCons(s[..p], s[p + 2..e], rest);
      SplitBoldRejoin(s, p, e, rest);
      [s[..p], s[p + 2..e]] + rest
  }

  /** The text captured by a bold match is plain. */
  lemma InnerIsPlain(s: string, p: nat)
    requires p < |s| && BoldMatchAt(s, p) >= 0
    ensures PlainInner(s[p + 2..BoldMatchAt(s, p)])
  {
    var e := BoldMatchAt(s, p);
    assert Text.OccursAt(s, "**", p) && e == ClosingAt(s, p + 2);
    var inner := s[p + 2..e];
    forall j | 0 <= j < |inner| ensures !Text.IsLineTerminator(inner[j]) {
      assert inner[j] == s[p + 2 + j];
    }
    forall j | 0 <= j < |inner| ensures !Text.OccursAt(inner, "**", j) {
      if j + 2 <= |inner| {
        assert inner[j..j + 2] == s[p + 2 + j..p + 2 + j + 2];
        assert !Text.OccursAt(s, "**", p + 2 + j);
      }
    }
  }

  lemma SplitBoldRejoin(s: string, p: nat, e: nat, rest: seq<string>)
    requires p + 2 <= e && e + 2 <= |s|
    requires s[p..p + 2] == "**" && s[e..e + 2] == "**"
    requires Rejoin(rest) == s[e + 2..]
    ensures Rejoin([s[..p], s[p + 2..e]] + rest) == s
  {
    var parts := [s[..p], s[p + 2..e]] + rest;
    assert parts[2..] == rest;
    assert s == s[..p] + s[p..p + 2] + s[p + 2..e] + s[e..e + 2] + s[e + 2..];
  }

  // ---------------------------------------------------------------------
  // The rendered structure

  datatype Inline = Plain(text: string) | Strong(text: string)

  /** A link (target, label, the punctuation printed after it) or a run
      of plain and bold text. */
  datatype Span = Link(href: string, caption: string, trailing: string) | Text(inlines: seq<Inline>)

  function Inlines(parts: seq<string>): (r: seq<Inline>)
    ensures |r| == |parts|
    ensures forall i :: 0 <= i < |r| ==> r[i].text == parts[i] && (r[i].Strong? <==> i % 2 == 1)
  {
    seq(|parts|, i requires 0 <= i < |parts| => if i % 2 == 1 then Strong(parts[i]) else Plain(parts[i]))
  }

  function RenderPart(part: string, hostname: HostOf): (r: Span)
    ensures r.Link? <==> ContainsUrl(part)
    ensures r.Link? ==> r.href + r.trailing == part
    // the link targets the URL without its trailing punctuation and shows its display name
    ensures r.Link? ==> r.href == StripPunct(part) && r.caption == DisplayName(r.href, hostname)
    ensures r.Text? ==> |r.inlines| % 2 == 1
  {
    if ContainsUrl(part) then
      var clean := StripPunct(part);
      assert clean + part[|clean|..] == part;
      Link(clean, DisplayName(clean, hostname), part[|clean|..])
    else
      Text(Inlines(SplitBold(part)))
  }

  /** renderMessageContent: one span per part of the URL split. */
  function Render(text: string, hostname: HostOf): (r: seq<Span>)
    ensures |r| == |SplitUrls(text)|
    ensures |r| % 2 == 1
  {
    var parts := SplitUrls(text);
    seq(|parts|, i requires 0 <= i < |parts| => RenderPart(parts[i], hostname))
  }

  /** Links sit exactly at the odd positions, every link's target carries
      no trailing punctuation and keeps everything else of the URL, and the
      text spans reassemble to the text between the URLs. */
  lemma RenderShape(text: string, hostname: HostOf, i: nat)
    requires i < |Render(text, hostname)|
    ensures Render(text, hostname)[i].Link? <==> i % 2 == 1
    ensures Render(text, hostname)[i].Link? ==>
              var l := Render(text, hostname)[i];
              && IsUrlToken(l.href + l.trailing)
              && (l.href == [] || !IsClosingPunct(l.href[|l.href| - 1]))
              && forall k :: 0 <= k < |l.trailing| ==> IsClosingPunct(l.trailing[k])
    ensures Render(text, hostname)[i].Text? ==>
              Rejoin(TextsOf(Render(text, hostname)[i].inlines)) == SplitUrls(text)[i]
  {
    var parts := SplitUrls(text);
    assert Render(text, hostname)[i] == RenderPart(parts[i], hostname);
    if i % 2 == 1 {
      LinkPartShape(parts[i], hostname);
    } else {
      TextPartShape(parts[i], hostname);
    }
  }

  /** A URL piece becomes a link whose target ends in no closing
      punctuation and whose trailing text is only such punctuation. */
  lemma LinkPartShape(part: string, hostname: HostOf)
    requires IsUrlToken(part)
    ensures var sp := RenderPart(part, hostname);
            && sp.Link? && IsUrlToken(sp.href + sp.trailing)
            && (sp.href == [] || !IsClosingPunct(sp.href[|sp.href| - 1]))
            && forall k :: 0 <= k < |sp.trailing| ==> IsClosingPunct(sp.trailing[k])
  {
    assert UrlMatchAt(part, 0) > 0 by { UrlTokenMatches(part); }
  }

  /** A URL-free piece becomes a text span whose pieces rejoin to it. */
  lemma TextPartShape(part: string, hostname: HostOf)
    requires !ContainsUrl(part)
    ensures RenderPart(part, hostname).Text?
    ensures Rejoin(TextsOf(RenderPart(part, hostname).inlines)) == part
  {
    assert TextsOf(Inlines(SplitBold(part))) == SplitBold(part);
  }

  function TextsOf(inlines: seq<Inline>): (r: seq<string>)
    ensures |r| == |inlines|
    ensures forall i :: 0 <= i < |r| ==> r[i] == inlines[i].text
  {
    seq(|inlines|, i requires 0 <= i < |inlines| => inlines[i].text)
  }

  /** The message text a span was made from: a link's target and the
      punctuation after it, or a text span's pieces rejoined. */
  function SourceOf(sp: Span): string
  {
    match sp
    case Link(href, _, trailing) => href + trailing
    case Text(inlines) => Rejoin(TextsOf(inlines))
  }

  function SourcesOf(spans: seq<Span>): (r: seq<string>)
    ensures |r| == |spans|
    ensures forall i :: 0 <= i < |r| ==> r[i] == SourceOf(spans[i])
  {
    seq(|spans|, i requires 0 <= i < |spans| => SourceOf(spans[i]))
  }

  /** Rendering loses no text: the spans, read back in order, spell the
      message exactly. */
  lemma RenderKeepsText(text: string, hostname: HostOf)
    ensures Concat(SourcesOf(Render(text, hostname))) == text
  {
    var parts := SplitUrls(text);
    var spans := Render(text, hostname);
    forall i | 0 <= i < |parts| ensures SourcesOf(spans)[i] == parts[i] {
      if spans[i].Text? {
        assert TextsOf(spans[i].inlines) == SplitBold(parts[i]);
      }
    }
    assert SourcesOf(spans) == parts;
  }

  /** A URL token matches the URL pattern at its start. */
  lemma UrlTokenMatches(t: string)
    requires IsUrlToken(t)
    ensures UrlMatchAt(t, 0) > 0
  {
    if |t| > 8 && t[..8] == "https://" {
      assert t[0..8] == t[..8];
    } else {
      assert t[0..7] == t[..7];
    }
  }

  /** "see https://ontriq.com/contact)." links the page and prints ")."
      after the link. */
  lemma StripPunctExample()
    ensures StripPunct("https://ontriq.com/contact).") == "https://ontriq.com/contact"
  {
  }

  /** A table entry wins over the host name. */
  lemma DisplayNameExample(hostname: HostOf)
    ensures DisplayName("https://ontriq.com/contact", hostname) == "Contact Page"
  {
  }
}
