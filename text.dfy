/** Text helpers used by the request handlers: Python's `str.split` and
    `str.join` on a one-character separator, and the data-URI prefix strip
    that `register` and `recognize` apply to the image payload. */
module Text {

  /** Position of the first `c` in `s` (Python's `s.index(c)`). */
  function IndexOf(s: string, c: char): (i: nat)
    requires c in s
    ensures i < |s| && s[i] == c && c !in s[..i]
  {
    if s[0] == c then 0
    else
      var j := IndexOf(s[1..], c);
      assert s[..1 + j] == [s[0]] + s[1..][..j];
      1 + j
  }

  /** `s.split(sep)`: the pieces between occurrences of `sep`, empty pieces
      included, so that there is always one more piece than separators. */
  function Split(s: string, sep: char): (parts: seq<string>)
    ensures |parts| >= 1
    ensures forall k :: 0 <= k < |parts| ==> sep !in parts[k]
    ensures sep in s <==> |parts| >= 2
    ensures parts[0] == if sep in s then s[..IndexOf(s, sep)] else s
    decreases |s|
  {
    if sep !in s then [s]
    else
      var i := IndexOf(s, sep);
      [s[..i]] + Split(s[i + 1..], sep)
  }

  /** `sep.join(parts)`; the join of no pieces is the empty string. */
  function Join(parts: seq<string>, sep: char): (s: string)
    ensures |parts| == 0 ==> s == ""
    ensures |parts| >= 1 ==> parts[0] <= s
    ensures |parts| >= 2 ==> |parts[0]| < |s| && s[|parts[0]|] == sep
  {
    if |parts| == 0 then ""
    else if |parts| == 1 then parts[0]
    else parts[0] + [sep] + Join(parts[1..], sep)
  }

  /** Splitting and joining again gives back the original text. */
  lemma {:induction false} JoinSplit(s: string, sep: char)
    ensures Join(Split(s, sep), sep) == s
    decreases |s|
  {
    if sep in s {
      var i := IndexOf(s, sep);
      var parts := Split(s, sep);
      var rest := Split(s[i + 1..], sep);
      assert parts == [s[..i]] + rest;
      assert parts[1..] == rest;
      JoinSplit(s[i + 1..], sep);
      assert Join(parts, sep) == s[..i] + [sep] + Join(rest, sep);
      assert s == s[..i] + [sep] + s[i + 1..];
    }
  }

  /** The first separator of a join sits right after the first piece. */
  lemma {:induction false} IndexOfJoin(parts: seq<string>, sep: char)
    requires |parts| >= 2
    requires sep !in parts[0]
    ensures sep in Join(parts, sep) && IndexOf(Join(parts, sep), sep) == |parts[0]|
  {
    var s := Join(parts, sep);
    assert s[|parts[0]|] == sep;
    IndexOfFirst(s, sep, |parts[0]|);
  }

  /** A position holding `c` with no `c` before it is the first one. */
  lemma IndexOfFirst(s: string, c: char, k: nat)
    requires k < |s| && s[k] == c && c !in s[..k]
    ensures IndexOf(s, c) == k
  {
  }

  /** Joining pieces free of the separator and splitting again gives back
      the pieces: `Split` and `Join` are mutual inverses. */
  lemma {:induction false} SplitJoin(parts: seq<string>, sep: char)
    requires |parts| >= 1
    requires forall k :: 0 <= k < |parts| ==> sep !in parts[k]
    ensures Split(Join(parts, sep), sep) == parts
  {
    if |parts| >= 2 {
      var s := Join(parts, sep);
      IndexOfJoin(parts, sep);
      var n := |parts[0]|;
      assert s[..n] == parts[0];
      assert s[n + 1..] == Join(parts[1..], sep);
      SplitJoin(parts[1..], sep);
    }
  }

  /** The payload handling of `register` and `recognize`: when the text
      contains a comma (a data URI as in section 2 of RFC 2397,
      `data:<mediatype>;base64,<data>`), keep `split(",")[1]`, otherwise the
      text as it is. */
  function StripDataUri(payload: string): (r: string)
    ensures ',' !in payload ==> r == payload
    ensures ',' in payload ==> ',' !in r && |r| < |payload|
  {
    if ',' in payload then Split(payload, ',')[1] else payload
  }

  /** The strip keeps exactly the segment between the first comma and the
      next comma (or the end), and leaves comma-free text alone. */
  lemma StripDataUriSegment(payload: string)
    ensures ',' !in payload ==> StripDataUri(payload) == payload
    ensures ',' in payload ==>
      var r := StripDataUri(payload);
      var i := IndexOf(payload, ',');
      && ',' !in r
      && i + 1 + |r| <= |payload|
      && payload[i + 1..i + 1 + |r|] == r
      && (i + 1 + |r| == |payload| || payload[i + 1 + |r|] == ',')
  {
    if ',' in payload {
      var i := IndexOf(payload, ',');
      var tail := payload[i + 1..];
      var parts := Split(tail, ',');
      assert Split(payload, ',') == [payload[..i]] + parts;
      var r := parts[0];
      assert StripDataUri(payload) == r;
      if ',' in tail {
        var j := IndexOf(tail, ',');
        assert r == tail[..j];
        assert payload[i + 1..i + 1 + j] == tail[..j];
        assert payload[i + 1 + j] == tail[j];
      } else {
        assert r == tail;
      }
    }
  }

  /** For a data URI whose header and base64 data hold no comma, the strip
      returns exactly the data. */
  lemma DataUriPayload(header: string, data: string)
    requires ',' !in header && ',' !in data
    ensures StripDataUri(header + "," + data) == data
  {
    SplitJoin([header, data], ',');
    assert Join([header, data], ',') == header + "," + data;
  }
}
