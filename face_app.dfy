/** The service's global state and its request handlers: the `faces` table,
    the vector index over the registration sentences and `faiss_mapping`,
    the list that maps index positions back to `(name, timestamp)`. */
module FaceApp {
  import opened FaceStore
  import opened Text
  import opened Recognition
  import opened ChatContext

  /** The JSON body of a handler's reply: `status` is "success" for the
      `Ok…` shapes and "error" (with a `reason`) for `Err`. */
  datatype Reply =
    | Ok
    | OkNames(names: seq<string>)
    | OkMessage(message: string)
    | OkData(data: seq<Registration>)
    | Err(reason: string)

  /** A request field that Python treats as true: present and not empty. */
  predicate Present(field: Option<string>)
  {
    field.Some? && field.value != ""
  }

  class Server {
    /** The `faces` table, in scan order. */
    var rows: seq<Row>
    /** `faiss_mapping`: index position to `(name, timestamp)`. */
    var faissMapping: seq<Registration>
    /** The vectors of `faiss_index`, each represented by the sentence it
        embeds; its length is the index's `ntotal`. */
    var faissIndex: seq<string>

    /** The primary key holds. */
    ghost predicate Valid()
      reads this
    {
      UniqueNames(rows)
    }

    /** The index and the mapping reflect the table: one entry per row, in
        the table's order. */
    ghost predicate Synced()
      reads this
    {
      && faissMapping == Registrations(rows)
      && faissIndex == Descriptions(faissMapping)
    }

    /** Start-up: the table as the database file holds it (created empty
        when absent) with an empty index and mapping, followed by the
        `rebuild_faiss_index()` that the entry point runs before serving. */
    constructor (persisted: seq<Row>)
      requires UniqueNames(persisted)
      ensures Valid() && Synced()
      ensures rows == persisted
      ensures |faissMapping| == |rows| && |faissIndex| == |rows|
    {
      rows := persisted;
      faissMapping := [];
      faissIndex := [];
      new;
      RebuildFaissIndex();
    }

    /** `rebuild_faiss_index`: clear the index and the mapping, then load
        one vector and one mapping entry per row. */
    method RebuildFaissIndex()
      requires Valid()
      modifies this
      ensures Valid() && Synced()
      ensures rows == old(rows)
      ensures |faissMapping| == |rows| && |faissIndex| == |rows|
      ensures rows == [] ==> faissMapping == [] && faissIndex == []
    {
      faissIndex := [];
      faissMapping := [];
      var regs := Registrations(rows);
      var texts := Descriptions(regs);
      if texts == [] {
        return;
      }
      faissIndex := faissIndex + texts;
      faissMapping := regs;
    }

    /** `save_face`: upsert the row for `name` with the timestamp `now`,
        then rebuild the index. */
    method SaveFace(name: string, encoding: Encoding, now: string)
      requires Valid()
      modifies this
      ensures Valid() && Synced()
      ensures rows == Upsert(old(rows), Row(name, encoding, now))
      ensures Lookup(rows, name) == Some(Row(name, encoding, now))
      ensures forall other :: other != name ==> Lookup(rows, other) == Lookup(old(rows), other)
      ensures |rows| == if Lookup(old(rows), name).None? then |old(rows)| + 1 else |old(rows)|
      ensures |faissMapping| == |rows|
    {
      var row := Row(name, encoding, now);
      UpsertCount(rows, row);
      UpsertLookup(rows, row);
      rows := Upsert(rows, row);
      RebuildFaissIndex();
    }

    /** `load_faces`: the names and the encodings of the rows, as two
        parallel lists in table order. */
    method LoadFaces() returns (names: seq<string>, encodings: seq<Encoding>)
      ensures |names| == |rows| && |encodings| == |rows|
      ensures forall i :: 0 <= i < |rows| ==> names[i] == rows[i].name && encodings[i] == rows[i].encoding
    {
      names, encodings := [], [];
      var i := 0;
      while i < |rows|
        invariant 0 <= i <= |rows|
        invariant |names| == i && |encodings| == i
        invariant forall k :: 0 <= k < i ==> names[k] == rows[k].name && encodings[k] == rows[k].encoding
      {
        names := names + [rows[i].name];
        encodings := encodings + [rows[i].encoding];
        i := i + 1;
      }
    }

    /** `POST /register`. `detect` stands for decoding the payload and
        running face detection on it; `now` is the current time. */
    method Register(name: Option<string>, image: Option<string>, detect: string -> Detection, now: string)
      returns (r: Reply)
      requires Valid()
      modifies this
      ensures Valid()
      ensures !Present(name) || !Present(image) ==> r == Err("Missing name or image") && unchanged(this)
      ensures Present(name) && Present(image) ==>
        match detect(StripDataUri(image.value))
        case Undecodable(reason) => r == Err(reason) && unchanged(this)
        case Detected(faces) =>
          if faces == [] then r == Err("No face detected") && unchanged(this)
          else
            && r == Ok
            && rows == Upsert(old(rows), Row(name.value, faces[0], now))
            && Synced()
    {
      if !Present(name) || !Present(image) {
        return Err("Missing name or image");
      }
      var payload := StripDataUri(image.value);
      var detection := detect(payload);
      if detection.Undecodable? {
        return Err(detection.reason);
      }
      if detection.faces == [] {
        return Err("No face detected");
      }
      var encoding := detection.faces[0];
      SaveFace(name.value, encoding, now);
      r := Ok;
    }

    /** `POST /recognize`: one name per detected face, in detection order,
        by the first-match rule against the table. `isMatch(known, probe)`
        stands for `compare_faces` and its distance threshold. */
    method Recognize(image: Option<string>, detect: string -> Detection, isMatch: (Encoding, Encoding) -> bool)
      returns (r: Reply)
      ensures !Present(image) ==> r == Err("Missing image")
      ensures Present(image) ==>
        match detect(StripDataUri(image.value))
        case Undecodable(reason) => r == Err(reason)
        case Detected(faces) =>
          if faces == [] then r == Err("No face detected")
          else
            && r.OkNames?
            && |r.names| == |faces|
            && forall i :: 0 <= i < |faces| ==> RecognizedAs(rows, faces[i], isMatch, r.names[i])
    {
      if !Present(image) {
        return Err("Missing image");
      }
      var payload := StripDataUri(image.value);
      var detection := detect(payload);
      if detection.Undecodable? {
        return Err(detection.reason);
      }
      var faces := detection.faces;
      if faces == [] {
        return Err("No face detected");
      }
      var knownNames, knownEncodings := LoadFaces();
      var results: seq<string> := [];
      var i := 0;
      while i < |faces|
        invariant 0 <= i <= |faces|
        invariant |results| == i
        invariant forall k :: 0 <= k < i ==> RecognizedAs(rows, faces[k], isMatch, results[k])
      {
        var name := Identify(knownNames, knownEncodings, faces[i], isMatch);
        results := results + [name];
        i := i + 1;
      }
      r := OkNames(results);
    }

    /** `POST /clear-db`: delete every row and rebuild the (now empty) index. */
    method ClearDb() returns (r: Reply)
      requires Valid()
      modifies this
      ensures Valid() && Synced()
      ensures r == OkMessage("All entries deleted.")
      ensures rows == [] && faissMapping == [] && faissIndex == []
    {
      rows := [];
      RebuildFaissIndex();
      r := OkMessage("All entries deleted.");
    }

    /** `POST /delete-name`: delete the row of `name`, if any, and rebuild
        the index; an absent or empty name is refused and changes nothing. */
    method DeleteName(name: Option<string>) returns (r: Reply)
      requires Valid()
      modifies this
      ensures Valid()
      ensures !Present(name) ==> r == Err("Name required") && unchanged(this)
      ensures Present(name) ==>
        && r == OkMessage("Deleted entry for " + name.value + ".")
        && rows == Remove(old(rows), name.value)
        && Lookup(rows, name.value).None?
        && (forall other :: other != name.value ==> Lookup(rows, other) == Lookup(old(rows), other))
        && |rows| == (if Lookup(old(rows), name.value).Some? then |old(rows)| - 1 else |old(rows)|)
        && Synced()
        && |faissMapping| == |rows|
    {
      if !Present(name) {
        return Err("Name required");
      }
      RemoveCount(rows, name.value);
      RemoveLookup(rows, name.value);
      rows := Remove(rows, name.value);
      RebuildFaissIndex();
      r := OkMessage("Deleted entry for " + name.value + ".");
    }

    /** `GET /list-db`: every `(name, timestamp)` of the table, ordered by
        timestamp. */
    function ListDb(): (r: Reply)
      reads this
      ensures r.OkData?
      ensures SortedByTimestamp(r.data)
      ensures multiset(r.data) == multiset(Registrations(rows))
    {
      var regs := Registrations(rows);
      SortByTimestampSorted(regs);
      OkData(SortByTimestamp(regs))
    }

    /** `POST /chat`, up to the call of the completion service. `nearest(q, k)`
        stands for embedding `q` and searching the index for its `k` nearest
        vectors; it gives the labels the search returns, at most `k` of them
        (FAISS returns exactly `k`, padded with -1). */
    function Chat(message: Option<string>, nearest: (string, nat) -> seq<int>): (r: ChatReply)
      requires forall q :: |nearest(q, K)| <= K
      reads this
      ensures !Present(message) ==> r == Warning(EmptyMessageWarning)
      ensures Present(message) ==> r.Ask? && r.prompt == Prompt(r.context, message.value)
      ensures Present(message) && faissIndex == [] ==> r.context == []
      ensures Present(message) ==> |r.context| <= |nearest(message.value, K)| <= K
      ensures Present(message) ==> forall n :: 0 <= n < |r.context| ==> DescribesSome(faissMapping, r.context[n])
      ensures Present(message) && faissIndex != [] ==> r.context == ContextLines(faissMapping, nearest(message.value, K))
    {
      if !Present(message) then Warning(EmptyMessageWarning)
      else
        var context := if faissIndex == [] then [] else ContextLines(faissMapping, nearest(message.value, K));
        Ask(context, Prompt(context, message.value))
    }
  }
}
