/** The recognition rule of `recognize`: each detected face is compared with
    every stored encoding and takes the name of the FIRST stored encoding
    that matches, in table order (not the closest one), or "Unknown". */
module Recognition {
  import opened FaceStore

  /** What decoding the image payload and running face detection yields:
      a failure (bad base64, an unreadable image) with its message, or the
      encodings of the detected faces in detection order. */
  datatype Detection = Undecodable(reason: string) | Detected(faces: seq<Encoding>)

  const Unknown := "Unknown"

  /** `compare_faces(known, probe)`: one verdict per known encoding. */
  function CompareFaces(known: seq<Encoding>, probe: Encoding, isMatch: (Encoding, Encoding) -> bool): (verdicts: seq<bool>)
    ensures |verdicts| == |known|
    ensures forall j :: 0 <= j < |known| ==> verdicts[j] == isMatch(known[j], probe)
  {
    seq(|known|, j requires 0 <= j < |known| => isMatch(known[j], probe))
  }

  /** `verdicts.index(True)` when `True in verdicts`, otherwise nothing. */
  function IndexOfTrue(verdicts: seq<bool>): (r: Option<nat>)
    ensures r.None? <==> true !in verdicts
    ensures r.Some? ==> r.value < |verdicts| && verdicts[r.value]
    ensures r.Some? ==> forall k :: 0 <= k < r.value ==> !verdicts[k]
  {
    if verdicts == [] then None
    else if verdicts[0] then Some(0)
    else
      match IndexOfTrue(verdicts[1..])
      case None => None
      case Some(j) => Some(j + 1)
  }

  /** Stored row `j` is the first one whose encoding matches `probe`. */
  ghost predicate FirstMatch(rows: seq<Row>, probe: Encoding, isMatch: (Encoding, Encoding) -> bool, j: int)
  {
    && 0 <= j < |rows|
    && isMatch(rows[j].encoding, probe)
    && forall k :: 0 <= k < j ==> !isMatch(rows[k].encoding, probe)
  }

  /** `name` is what the first-match rule gives for `probe` against `rows`. */
  ghost predicate RecognizedAs(rows: seq<Row>, probe: Encoding, isMatch: (Encoding, Encoding) -> bool, name: string)
  {
    && ((forall j :: 0 <= j < |rows| ==> !isMatch(rows[j].encoding, probe)) ==> name == Unknown)
    && (forall j :: FirstMatch(rows, probe, isMatch, j) ==> name == rows[j].name)
  }

  /** The name `recognize` reports for one detected face, given the parallel
      name and encoding lists that `load_faces` returns. */
  function Identify(names: seq<string>, known: seq<Encoding>, probe: Encoding, isMatch: (Encoding, Encoding) -> bool): (name: string)
    requires |names| == |known|
    ensures (forall j :: 0 <= j < |known| ==> !isMatch(known[j], probe)) ==> name == Unknown
    ensures forall j :: 0 <= j < |known| && isMatch(known[j], probe) && (forall k :: 0 <= k < j ==> !isMatch(known[k], probe))
                        ==> name == names[j]
  {
    var verdicts := CompareFaces(known, probe, isMatch);
    var first := IndexOfTrue(verdicts);
    if first.Some? then names[first.value] else Unknown
  }
}
