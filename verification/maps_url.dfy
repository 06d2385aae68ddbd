/**
  Extraction of the coordinates embedded in a Google Maps URL
  (`getGoogleMapsLocation`, src/utils/map.js:15-25).

  The source matches the URL against the regular expression `@(.*),(.*),`.
  JavaScript's `.` matches any character except a line terminator, both
  groups are greedy, and `String.prototype.match` reports the leftmost match.
  This module states those semantics declaratively (IsMatch, IsSelectedMatch)
  and computes the selected match by scanning (Match), proving the two agree.
  The two captured substrings are returned as they are: the `Number(...)`
  conversion that follows in the source is not modelled.
*/
module MapsUrl {
  import opened Wrappers

  /** The characters JavaScript's `.` refuses to match when the `s` flag is absent. */
  predicate IsLineTerminator(c: char) {
    c == '\n' || c == '\r' || c == '\U{2028}' || c == '\U{2029}'
  }

  /** `@(.*),(.*),` can match `s` with the `@` at `at`, the first literal comma at `sep`
      and the second at `end`: neither group crosses a line terminator. */
  ghost predicate IsMatch(s: string, at: int, sep: int, end: int) {
    && 0 <= at < sep < end < |s|
    && s[at] == '@' && s[sep] == ',' && s[end] == ','
    && forall k :: at < k < end ==> !IsLineTerminator(s[k])
  }

  /** The match a backtracking engine reports: the leftmost start, then the longest
      first group, then the longest second group. */
  ghost predicate IsSelectedMatch(s: string, at: int, sep: int, end: int) {
    && IsMatch(s, at, sep, end)
    && (forall a, b, c :: IsMatch(s, a, b, c) ==> at <= a)
    && (forall b, c :: IsMatch(s, at, b, c) ==> b <= sep)
    && (forall c :: IsMatch(s, at, sep, c) ==> c <= end)
  }

  /** The two captured groups as text. */
  datatype Location = Location(latitude: string, longitude: string)

  /** `url.match(regex)` is `null` and reading `match[1]` throws a TypeError. */
  datatype ParseError = NoMatch

  /** The largest index in [lo, hi) holding a comma, if any. */
  function LastComma(s: string, lo: nat, hi: nat): (r: Option<nat>)
    requires lo <= hi <= |s|
    ensures r.Some? ==> lo <= r.value < hi && s[r.value] == ','
    ensures r.Some? ==> forall k :: r.value < k < hi ==> s[k] != ','
    ensures r.None? ==> forall k :: lo <= k < hi ==> s[k] != ','
    decreases hi
  {
    if hi == lo then None
    else if s[hi - 1] == ',' then Some(hi - 1)
    else LastComma(s, lo, hi - 1)
  }

  /** The first index at or after `k` holding a line terminator, or |s| when there is none. */
  function LineEnd(s: string, k: nat): (e: nat)
    requires k <= |s|
    ensures k <= e <= |s|
    ensures e < |s| ==> IsLineTerminator(s[e])
    ensures forall j :: k <= j < e ==> !IsLineTerminator(s[j])
    decreases |s| - k
  {
    if k == |s| || IsLineTerminator(s[k]) then k else LineEnd(s, k + 1)
  }

  /** The greedy match starting at `at`: the last two commas before the end of the line. */
  function MatchAt(s: string, at: nat): (r: Option<(nat, nat)>)
    requires at < |s|
    ensures r.Some? ==> IsMatch(s, at, r.value.0, r.value.1)
    ensures r.Some? ==> forall b, c :: IsMatch(s, at, b, c) ==> b <= r.value.0
    ensures r.Some? ==> forall c :: IsMatch(s, at, r.value.0, c) ==> c <= r.value.1
    ensures r.None? ==> forall b, c :: !IsMatch(s, at, b, c)
  {
    if s[at] != '@' then None
    else
      var e := LineEnd(s, at + 1);
      // Any match ends on a comma before the first line terminator after `at`.
      assert forall b, c :: IsMatch(s, at, b, c) ==> c < e by {
        forall b, c | IsMatch(s, at, b, c) ensures c < e {
          assert !IsLineTerminator(s[c]);
        }
      }
      match LastComma(s, at + 1, e)
      case None => None
      case Some(end) =>
        match LastComma(s, at + 1, end)
        case None => None
        case Some(sep) => Some((sep, end))
  }

  /** The leftmost match whose `@` lies at or after `i`. */
  function MatchFrom(s: string, i: nat): (r: Option<(nat, nat, nat)>)
    requires i <= |s|
    ensures r.Some? ==> i <= r.value.0 && IsMatch(s, r.value.0, r.value.1, r.value.2)
    ensures r.Some? ==> forall a, b, c :: i <= a && IsMatch(s, a, b, c) ==> r.value.0 <= a
    ensures r.Some? ==> forall b, c :: IsMatch(s, r.value.0, b, c) ==> b <= r.value.1
    ensures r.Some? ==> forall c :: IsMatch(s, r.value.0, r.value.1, c) ==> c <= r.value.2
    ensures r.None? ==> forall a, b, c :: i <= a ==> !IsMatch(s, a, b, c)
    decreases |s| - i
  {
    if i == |s| then None
    else
      match MatchAt(s, i)
      case Some(m) => Some((i, m.0, m.1))
      case None => MatchFrom(s, i + 1)
  }

  /** `url.match(/@(.*),(.*),/)`: the selected match, or nothing when the URL has none. */
  function Match(url: string): (r: Option<(nat, nat, nat)>)
    ensures r.Some? ==> IsSelectedMatch(url, r.value.0, r.value.1, r.value.2)
    ensures r.None? <==> forall a, b, c :: !IsMatch(url, a, b, c)
  {
    MatchFrom(url, 0)
  }

  /** `getGoogleMapsLocation`: the two captured groups, or the TypeError of indexing a null match. */
  function GetGoogleMapsLocation(url: string): (r: Result<Location, ParseError>)
    ensures r.Failure? <==> forall a, b, c :: !IsMatch(url, a, b, c)
    ensures forall at, sep, end :: IsSelectedMatch(url, at, sep, end) ==>
      r == Success(Location(url[at + 1..sep], url[sep + 1..end]))
  {
    match Match(url)
    case None => Failure(NoMatch)
    case Some(m) =>
      assert forall at, sep, end :: IsSelectedMatch(url, at, sep, end) ==> (at, sep, end) == m by {
        forall at, sep, end | IsSelectedMatch(url, at, sep, end)
          ensures (at, sep, end) == m
        {
          SelectedMatchUnique(url, at, sep, end, m.0, m.1, m.2);
        }
      }
      Success(Location(url[m.0 + 1..m.1], url[m.1 + 1..m.2]))
  }

  /** The regular expression selects at most one match, so the location is determined by the URL. */
  lemma SelectedMatchUnique(s: string, a: int, b: int, c: int, a': int, b': int, c': int)
    requires IsSelectedMatch(s, a, b, c)
    requires IsSelectedMatch(s, a', b', c')
    ensures a == a' && b == b' && c == c'
  {
    assert a <= a' && a' <= a;
    assert b <= b' && b' <= b;
    assert c <= c' && c' <= c;
  }

  /** The selected match described by the text alone: an `@` no earlier `@` matches from,
      the last comma before the end of its line, and the comma before that. */
  ghost predicate ShapedLikeSelected(s: string, at: int, sep: int, end: int) {
    && 0 <= at < sep < end < |s|
    && s[at] == '@' && s[sep] == ',' && s[end] == ','
    && (forall k :: at < k < end ==> !IsLineTerminator(s[k]))
    && (forall k :: sep < k < end ==> s[k] != ',')
    && (forall k :: end < k < LineEnd(s, end + 1) ==> s[k] != ',')
    && (forall a, b, c :: 0 <= a < at ==> !IsMatch(s, a, b, c))
  }

  /** The selected match has the shape. */
  lemma SelectedIsShaped(s: string, at: int, sep: int, end: int)
    requires IsSelectedMatch(s, at, sep, end)
    ensures ShapedLikeSelected(s, at, sep, end)
  {
    forall k | sep < k < end
      ensures s[k] != ','
    {
      assert s[k] == ',' ==> IsMatch(s, at, k, end);
    }
    var e := LineEnd(s, end + 1);
    forall k | end < k < e
      ensures s[k] != ','
    {
      assert s[k] == ',' ==> IsMatch(s, at, sep, k);
    }
  }

  /** A match of that shape is the selected one. */
  lemma ShapedIsSelected(s: string, at: int, sep: int, end: int)
    requires ShapedLikeSelected(s, at, sep, end)
    ensures IsSelectedMatch(s, at, sep, end)
  {
    assert IsMatch(s, at, sep, end);
    var e := LineEnd(s, end + 1);
    forall b, c | IsMatch(s, at, b, c)
      ensures b <= sep && c <= end
    {
      assert !IsLineTerminator(s[c]);
      assert c > end ==> c < e;
    }
  }

  /** The match a backtracking engine selects is exactly the one of that shape: the latitude
      text runs from the `@` to the second-to-last comma of the rest of its line and the
      longitude text holds no comma. */
  lemma SelectedMatchIff(s: string, at: int, sep: int, end: int)
    ensures IsSelectedMatch(s, at, sep, end) <==> ShapedLikeSelected(s, at, sep, end)
  {
    if IsSelectedMatch(s, at, sep, end) {
      SelectedIsShaped(s, at, sep, end);
    }
    if ShapedLikeSelected(s, at, sep, end) {
      ShapedIsSelected(s, at, sep, end);
    }
  }

  /** Whatever the URL, a match of the selected shape is what `getGoogleMapsLocation` reports. */
  lemma LocationOfShaped(s: string, at: int, sep: int, end: int)
    requires ShapedLikeSelected(s, at, sep, end)
    ensures GetGoogleMapsLocation(s) == Success(Location(s[at + 1..sep], s[sep + 1..end]))
  {
    ShapedIsSelected(s, at, sep, end);
  }

  /** The URL `prefix@lat,lng,rest`, built from its parts. */
  function BuildUrl(prefix: string, lat: string, lng: string, rest: string): string {
    prefix + "@" + lat + "," + lng + "," + rest
  }

  /** Where the `@` and the two literal commas of `BuildUrl` sit, and what lies between. */
  lemma BuildUrlLayout(prefix: string, lat: string, lng: string, rest: string)
    ensures var s, at := BuildUrl(prefix, lat, lng, rest), |prefix|;
      var sep := at + 1 + |lat|;
      var end := sep + 1 + |lng|;
      && |s| == end + 1 + |rest|
      && s[at] == '@' && s[sep] == ',' && s[end] == ','
      && (forall k :: 0 <= k < at ==> s[k] == prefix[k])
      && (forall k :: at < k < sep ==> s[k] == lat[k - at - 1])
      && (forall k :: sep < k < end ==> s[k] == lng[k - sep - 1])
      && (forall k :: end < k < |s| ==> s[k] == rest[k - end - 1])
  {
  }

  /** The text between the `@` and the first literal comma is `lat`, and the text between
      the two literal commas is `lng`. */
  lemma BuildUrlFields(prefix: string, lat: string, lng: string, rest: string)
    ensures var s, at := BuildUrl(prefix, lat, lng, rest), |prefix|;
      && at + 2 + |lat| + |lng| < |s|
      && s[at + 1..at + 1 + |lat|] == lat
      && s[at + 2 + |lat|..at + 2 + |lat| + |lng|] == lng
  {
    var s, at := BuildUrl(prefix, lat, lng, rest), |prefix|;
    var sep := at + 1 + |lat|;
    var end := sep + 1 + |lng|;
    assert s == (prefix + "@") + (lat + "," + lng + "," + rest);
    assert s == (prefix + "@" + lat + ",") + (lng + "," + rest);
    assert s[at + 1..sep] == lat by {
      assert forall k :: 0 <= k < |lat| ==> s[at + 1..sep][k] == lat[k];
    }
    assert s[sep + 1..end] == lng by {
      assert forall k :: 0 <= k < |lng| ==> s[sep + 1..end][k] == lng[k];
    }
  }

  /** The conditions under which `BuildUrl` puts the selected match on its own `@` and
      commas: the prefix holds no `@`, the latitude text crosses no line terminator, the
      longitude text holds neither a comma nor a line terminator, and the remainder holds
      no comma. */
  predicate WellFormedParts(prefix: string, lat: string, lng: string, rest: string) {
    && (forall k :: 0 <= k < |prefix| ==> prefix[k] != '@')
    && (forall k :: 0 <= k < |lat| ==> !IsLineTerminator(lat[k]))
    && (forall k :: 0 <= k < |lng| ==> lng[k] != ',' && !IsLineTerminator(lng[k]))
    && (forall k :: 0 <= k < |rest| ==> rest[k] != ',')
  }

  /** No `@` in the prefix can start a match. */
  lemma NoEarlierMatch(s: string, at: nat)
    requires at <= |s|
    requires forall k :: 0 <= k < at ==> s[k] != '@'
    ensures forall a, b, c :: 0 <= a < at ==> !IsMatch(s, a, b, c)
  {
  }

  lemma BuildUrlShaped(prefix: string, lat: string, lng: string, rest: string)
    requires WellFormedParts(prefix, lat, lng, rest)
    ensures var at := |prefix|;
      ShapedLikeSelected(BuildUrl(prefix, lat, lng, rest), at, at + 1 + |lat|, at + 2 + |lat| + |lng|)
  {
    var s, at := BuildUrl(prefix, lat, lng, rest), |prefix|;
    var sep := at + 1 + |lat|;
    var end := sep + 1 + |lng|;
    BuildUrlLayout(prefix, lat, lng, rest);
    NoEarlierMatch(s, at);
    forall k | at < k < end
      ensures !IsLineTerminator(s[k])
    {
      if k < sep {
        assert s[k] == lat[k - at - 1];
      } else if sep < k {
        assert s[k] == lng[k - sep - 1];
      }
    }
    forall k | sep < k < end
      ensures s[k] != ','
    {
      assert s[k] == lng[k - sep - 1];
    }
    forall k | end < k < LineEnd(s, end + 1)
      ensures s[k] != ','
    {
      assert s[k] == rest[k - end - 1];
    }
  }

  /** Round trip: a URL `prefix@lat,lng,rest` built from well-formed parts gives back
      exactly `lat` and `lng`. The latitude text may itself hold commas: the greedy first
      group absorbs them. */
  lemma BuildUrlRoundTrip(prefix: string, lat: string, lng: string, rest: string)
    requires WellFormedParts(prefix, lat, lng, rest)
    ensures GetGoogleMapsLocation(BuildUrl(prefix, lat, lng, rest)) == Success(Location(lat, lng))
  {
    var s, at := BuildUrl(prefix, lat, lng, rest), |prefix|;
    BuildUrlShaped(prefix, lat, lng, rest);
    BuildUrlFields(prefix, lat, lng, rest);
    ShapedLocation(s, at, at + 1 + |lat|, at + 2 + |lat| + |lng|, lat, lng);
  }

  /** `LocationOfShaped`, with the two fields named. */
  lemma ShapedLocation(s: string, at: int, sep: int, end: int, lat: string, lng: string)
    requires ShapedLikeSelected(s, at, sep, end)
    requires s[at + 1..sep] == lat && s[sep + 1..end] == lng
    ensures GetGoogleMapsLocation(s) == Success(Location(lat, lng))
  {
    LocationOfShaped(s, at, sep, end);
  }

  /** `maps/@34.0522,-118.2437,15z`. */
  const LosAngelesUrl: string := BuildUrl("maps/", "34.0522", "-118.2437", "15z")

  /** The Los Angeles example: `@34.0522,-118.2437,15z` gives "34.0522" and "-118.2437". */
  lemma LosAngelesExample()
    ensures GetGoogleMapsLocation(LosAngelesUrl) == Success(Location("34.0522", "-118.2437"))
  {
    assert WellFormedParts("maps/", "34.0522", "-118.2437", "15z");
    BuildUrlRoundTrip("maps/", "34.0522", "-118.2437", "15z");
  }

  /** A URL with an `@` but only one comma after it has no match. */
  lemma OneCommaFails()
    ensures GetGoogleMapsLocation("maps/@34.0522,-118.2437").Failure?
  {
    var s := "maps/@34.0522,-118.2437";
    assert forall k :: 0 <= k < |s| && s[k] == '@' ==> k == 5;
    assert forall k :: 5 < k < |s| && s[k] == ',' ==> k == 13;
    assert forall a, b, c :: !IsMatch(s, a, b, c);
  }
}
