/**
 * Display helpers of the client: the image URL for a catalog poster or
 * backdrop, and the "1h 35m" rendering of a runtime in minutes.
 */
module TmdbFormat {
  import opened Wrappers
  import opened Seqs
  import opened Strings

  // ---------------------------------------------------------------------------
  // getTmdbImageUrl
  // ---------------------------------------------------------------------------

  datatype ImageType = Poster | Backdrop

  const ImageBase := "https://image.tmdb.org/t/p/"
  const PlaceholderHost := "https://via.placeholder.com/"
  const PosterPlaceholder := PlaceholderHost + "500x750?text=No+Image+Available"
  const BackdropPlaceholder := PlaceholderHost + "1280x720?text=No+Image+Available"

  /** The size segment of the image URL for each image type. */
  function ImageSize(kind: ImageType): string
  {
    if kind == Poster then "w500" else "w1280"
  }

  function Placeholder(kind: ImageType): string
  {
    if kind == Poster then PosterPlaceholder else BackdropPlaceholder
  }

  /** JavaScript's `!path` for a `string | null`: `null` and `""` are falsy. */
  predicate MissingPath(path: Option<string>)
  {
    path.None? || path.value == ""
  }

  function GetTmdbImageUrl(path: Option<string>, kind: ImageType): string
  {
    if MissingPath(path) then Placeholder(kind)
    else ImageBase + ImageSize(kind) + path.value
  }

  /** The catalog path inside an image URL of the given type, or `None` if it is not one. */
  function ImagePath(url: string, kind: ImageType): Option<string>
  {
    var prefix := ImageBase + ImageSize(kind);
    if |url| > |prefix| && url[..|prefix|] == prefix then Some(url[|prefix|..]) else None
  }

  /**
   * The image URL carries the path it was built from: a given path is read
   * back from the URL, and a missing one yields the placeholder, which is not
   * an image URL at all.
   */
  lemma ImageUrlRoundTrip(path: Option<string>, kind: ImageType)
    ensures MissingPath(path) ==> GetTmdbImageUrl(path, kind) == Placeholder(kind)
    ensures ImagePath(GetTmdbImageUrl(path, kind), kind) == if MissingPath(path) then None else path
  {
    var prefix := ImageBase + ImageSize(kind);
    var url := GetTmdbImageUrl(path, kind);
    if MissingPath(path) {
      assert url == Placeholder(kind);
      assert PosterPlaceholder[8] == 'v' && BackdropPlaceholder[8] == 'v';
      assert prefix[8] == 'i' && url[8] == 'v';
      assert |url| > |prefix| ==> url[..|prefix|][8] == url[8];
    } else {
      assert url[..|prefix|] == prefix;
      assert url[|prefix|..] == path.value;
    }
  }

  /** The second character of the size segment tells the image types apart. */
  lemma SizeCharOfUrl(p: string, kind: ImageType)
    requires p != ""
    ensures GetTmdbImageUrl(Some(p), kind)[|ImageBase| + 1] == if kind == Poster then '5' else '1'
  {
    var url := GetTmdbImageUrl(Some(p), kind);
    assert url == ImageBase + (ImageSize(kind) + p);
    assert url[|ImageBase| + 1] == (ImageSize(kind) + p)[1] == ImageSize(kind)[1];
  }

  /** Different images (type or path) never share a URL. */
  lemma ImageUrlInjective(p: string, pk: ImageType, q: string, qk: ImageType)
    requires p != "" && q != ""
    requires GetTmdbImageUrl(Some(p), pk) == GetTmdbImageUrl(Some(q), qk)
    ensures p == q && pk == qk
  {
    var url := GetTmdbImageUrl(Some(p), pk);
    ImageUrlRoundTrip(Some(p), pk);
    ImageUrlRoundTrip(Some(q), qk);
    if pk != qk {
      SizeCharOfUrl(p, pk);
      SizeCharOfUrl(q, qk);
      assert false;
    }
  }

  // ---------------------------------------------------------------------------
  // formatRuntime
  // ---------------------------------------------------------------------------

  /** JavaScript's `a % b`: the remainder has the sign of the dividend. */
  function JsRem(a: int, b: int): (r: int)
    requires b > 0
    ensures a >= 0 ==> 0 <= r < b
    ensures a < 0 ==> -b < r <= 0
    ensures r == a - b * (if a >= 0 then a / b else -((-a) / b))
  {
    if a >= 0 then a % b else -((-a) % b)
  }

  /**
   * `Math.floor(minutes / 60)` and `minutes % 60`. Dafny's `/` by a positive
   * divisor rounds down, as `Math.floor` does.
   */
  function SplitRuntime(minutes: int): (hm: (int, int))
    ensures minutes >= 0 ==> hm.0 >= 0 && 0 <= hm.1 < 60 && hm.0 * 60 + hm.1 == minutes
    ensures minutes < 0 ==> hm.0 < 0 && -60 < hm.1 <= 0
  {
    (minutes / 60, JsRem(minutes, 60))
  }

  /** `formatRuntime`: `undefined` and `0` are falsy and print as "N/A". */
  function FormatRuntime(minutes: Option<int>): string
  {
    if minutes.None? || minutes.value == 0 then "N/A"
    else
      var (hours, remaining) := SplitRuntime(minutes.value);
      if hours == 0 then IntToString(remaining) + "m"
      else if remaining == 0 then IntToString(hours) + "h"
      else IntToString(hours) + "h " + IntToString(remaining) + "m"
  }

  function IsChar(c: char): char -> bool
  {
    (x: char) => x == c
  }

  /** Reads "<r>m" back into its minutes. */
  function ParseMinutes(s: string): Option<nat>
  {
    if |s| >= 2 && s[|s| - 1] == 'm' && AllDigits(s[..|s| - 1])
    then Some(ParseNat(s[..|s| - 1]))
    else None
  }

  /** Reads a rendering "<r>m", "<h>h" or "<h>h <r>m" back into its hours and minutes. */
  function ParseRuntime(s: string): Option<(nat, nat)>
  {
    match FirstIndex(s, IsChar('h'))
    case None =>
      (match ParseMinutes(s)
       case None => None
       case Some(r) => Some((0, r)))
    case Some(k) =>
      if k == 0 || !AllDigits(s[..k]) then None
      else ParseAfterHours(ParseNat(s[..k]), s[k + 1..])
  }

  /** What may follow "<h>h": nothing, or a space and "<r>m". */
  function ParseAfterHours(hours: nat, rest: string): Option<(nat, nat)>
  {
    if rest == "" then Some((hours, 0))
    else if rest[0] != ' ' then None
    else match ParseMinutes(rest[1..])
      case None => None
      case Some(r) => Some((hours, r))
  }

  /** The first `c` after a run of digits is right behind them. */
  lemma FirstAfterDigits(d: string, tail: string, c: char)
    requires AllDigits(d) && !IsDigit(c) && |tail| > 0 && tail[0] == c
    ensures FirstIndex(d + tail, IsChar(c)) == Some(|d|)
  {
    var s := d + tail;
    assert IsChar(c)(s[|d|]);
  }

  lemma ParseMinutesOf(d: string)
    requires |d| >= 1 && AllDigits(d)
    ensures ParseMinutes(d + "m") == Some(ParseNat(d))
  {
    assert (d + "m")[..|d|] == d;
  }

  lemma ParseMinutesOnly(d: string)
    requires |d| >= 1 && AllDigits(d)
    ensures ParseRuntime(d + "m") == Some((0, ParseNat(d)))
  {
    var s := d + "m";
    forall j | 0 <= j < |s| ensures !IsChar('h')(s[j]) {
      if j < |d| { assert s[j] == d[j]; }
    }
    ParseMinutesOf(d);
  }

  /** A rendering that starts with hour digits is read as those hours and what follows the "h". */
  lemma ParseAtHours(d: string, tail: string)
    requires |d| >= 1 && AllDigits(d) && |tail| >= 1 && tail[0] == 'h'
    ensures ParseRuntime(d + tail) == ParseAfterHours(ParseNat(d), tail[1..])
  {
    var s := d + tail;
    FirstAfterDigits(d, tail, 'h');
    assert s[..|d|] == d;
    assert s[|d| + 1..] == tail[1..];
  }

  lemma ParseHoursOnly(d: string)
    requires |d| >= 1 && AllDigits(d)
    ensures ParseRuntime(d + "h") == Some((ParseNat(d), 0))
  {
    ParseAtHours(d, "h");
    assert "h"[1..] == "";
  }

  lemma ParseMinutesAfterHours(hours: nat, dr: string)
    requires |dr| >= 1 && AllDigits(dr)
    ensures ParseAfterHours(hours, " " + dr + "m") == Some((hours, ParseNat(dr)))
  {
    assert (" " + dr + "m")[1..] == dr + "m";
    ParseMinutesOf(dr);
  }

  lemma ParseHoursAndMinutes(dh: string, dr: string)
    requires |dh| >= 1 && AllDigits(dh) && |dr| >= 1 && AllDigits(dr)
    ensures ParseRuntime(dh + "h " + dr + "m") == Some((ParseNat(dh), ParseNat(dr)))
  {
    var after := " " + dr + "m";
    var tail := "h" + after;
    assert dh + "h " + dr + "m" == dh + tail;
    ParseAtHours(dh, tail);
    assert tail[1..] == after;
    ParseMinutesAfterHours(ParseNat(dh), dr);
  }

  /**
   * The rendering of a positive runtime reads back as its whole hours and
   * remaining minutes, which add up to the runtime.
   */
  lemma FormatRuntimeRoundTrip(minutes: int)
    requires minutes > 0
    ensures ParseRuntime(FormatRuntime(Some(minutes))).Some?
    ensures var (h, r) := ParseRuntime(FormatRuntime(Some(minutes))).value;
            h * 60 + r == minutes && r < 60
  {
    var (h, r) := SplitRuntime(minutes);
    ParseNatToString(h);
    ParseNatToString(r);
    if h == 0 {
      ParseMinutesOnly(NatToString(r));
    } else if r == 0 {
      ParseHoursOnly(NatToString(h));
    } else {
      ParseHoursAndMinutes(NatToString(h), NatToString(r));
    }
  }

  /** Distinct positive runtimes render differently. */
  lemma FormatRuntimeInjective(a: int, b: int)
    requires a > 0 && b > 0
    requires FormatRuntime(Some(a)) == FormatRuntime(Some(b))
    ensures a == b
  {
    FormatRuntimeRoundTrip(a);
    FormatRuntimeRoundTrip(b);
  }

  /** "N/A" is printed exactly for a missing or zero runtime. */
  lemma NotAvailableIffMissing(minutes: Option<int>)
    ensures FormatRuntime(minutes) == "N/A" <==> minutes.None? || minutes.value == 0
  {
    var s := FormatRuntime(minutes);
    if minutes.Some? && minutes.value != 0 {
      assert s[|s| - 1] == 'm' || s[|s| - 1] == 'h';
    }
  }

  /**
   * The three renderings of a positive runtime: minutes only below one hour,
   * hours only on a whole hour, both otherwise.
   */
  lemma FormatRuntimeShapes(minutes: int)
    requires minutes > 0
    ensures minutes < 60 ==> FormatRuntime(Some(minutes)) == NatToString(minutes) + "m"
    ensures minutes >= 60 && minutes % 60 == 0 ==> FormatRuntime(Some(minutes)) == NatToString(minutes / 60) + "h"
    ensures minutes >= 60 && minutes % 60 != 0 ==>
      FormatRuntime(Some(minutes)) == NatToString(minutes / 60) + "h " + NatToString(minutes % 60) + "m"
  {
  }

  /**
   * Below zero the floor quotient and the truncated remainder disagree:
   * -30 minutes prints as "-1h -30m", which reads as -90.
   */
  lemma NegativeRuntime()
    ensures FormatRuntime(Some(-30)) == "-1h -30m"
    ensures SplitRuntime(-30).0 * 60 + SplitRuntime(-30).1 != -30
  {
    assert NatToString(1) == "1";
    assert NatToString(30) == NatToString(3) + "0";
  }
}
