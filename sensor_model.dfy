/** models/sensorData.js: the strict request schema that a new sensor
    reading must satisfy, and the field set of the storage schema. */
module SensorModel {
  import opened JsValues
  import opened JsStrings
  import opened Issues

  /** The fields the request schema declares. */
  const InputFieldSet: set<string> := {"location", "temperatureCelsius", "humidityPercentage", "pressureHpa"}

  /** The fields of the storage schema. */
  const StorageFields: set<string> := {"timestamp", "location", "temperatureCelsius", "humidityPercent", "pressureHpa"}

  const EmptyLocationMessage := "Location must not be empty."

  /** The schema's message for a value of the wrong type. */
  function TypeMessage(field: string): string
  {
    match field
    case "location" => "Location must be a string."
    case "temperatureCelsius" => "Temperature must be a number."
    case "humidityPercentage" => "Humidity percentage must be a number."
    case _ => "Pressure HPA must be a number."
  }

  /** `location`: a string, at least one character long once trimmed. A
      missing value gets the library's "required" text: the schema passes
      its own text under a key the library does not read. */
  function LocationIssue(v: Value): Option<Issue>
  {
    match v
    case Undefined => Some(Issue(["location"], LibraryRequired))
    case Str(s) => if |Trim(s)| >= 1 then None else Some(Issue(["location"], Custom(EmptyLocationMessage)))
    case _ => Some(Issue(["location"], Custom(TypeMessage("location"))))
  }

  /** A measurement field: a number. */
  function MeasurementIssue(field: string, v: Value): Option<Issue>
  {
    match v
    case Undefined => Some(Issue([field], LibraryRequired))
    case Number(_) => None
    case _ => Some(Issue([field], Custom(TypeMessage(field))))
  }

  /** `.strict()`: every key outside the schema is reported in one issue at the root. */
  function StrictIssue(o: Object): Option<Issue>
  {
    var extra := o.Keys - InputFieldSet;
    if extra == {} then None else Some(Issue([], LibraryUnrecognizedKeys(extra)))
  }

  /** The issues of the four declared fields, in declaration order. */
  function FieldIssues(o: Object): seq<Issue>
  {
    Listed(LocationIssue(Get(o, "location")))
    + Listed(MeasurementIssue("temperatureCelsius", Get(o, "temperatureCelsius")))
    + Listed(MeasurementIssue("humidityPercentage", Get(o, "humidityPercentage")))
    + Listed(MeasurementIssue("pressureHpa", Get(o, "pressureHpa")))
  }

  /** `sensorDataValidationSchema.parse(body)`: the issues it reports, in
      order, or none when the body is accepted. Every field is checked,
      so all failing fields are reported together. */
  function SensorDataIssues(body: Value): (issues: seq<Issue>)
    ensures !body.Object? ==> issues == [Issue([], LibraryInvalidType)]
  {
    match body
    case Object(o) =>
      FieldIssues(o) + Listed(StrictIssue(o))
    case _ => [Issue([], LibraryInvalidType)]
  }

  // ----- an independent statement of what the schema accepts -----

  predicate HasNonWhiteSpace(s: string)
  {
    exists i :: 0 <= i < |s| && !IsWhiteSpace(s[i])
  }

  /** What a field must hold: a location with some non-blank character, a number otherwise. */
  predicate FieldAcceptable(field: string, v: Value)
  {
    if field == "location" then v.Str? && HasNonWhiteSpace(v.s) else v.Number?
  }

  /** A sensor reading request: exactly the four schema keys, each acceptable. */
  predicate IsSensorReading(body: Value)
  {
    && body.Object?
    && body.fields.Keys == InputFieldSet
    && FieldAcceptable("location", body.fields["location"])
    && FieldAcceptable("temperatureCelsius", body.fields["temperatureCelsius"])
    && FieldAcceptable("humidityPercentage", body.fields["humidityPercentage"])
    && FieldAcceptable("pressureHpa", body.fields["pressureHpa"])
  }

  lemma LocationIssueNone(v: Value)
    ensures LocationIssue(v).None? <==> FieldAcceptable("location", v)
  {
    if v.Str? {
      var s := v.s;
      if HasNonWhiteSpace(s) {
        var i :| 0 <= i < |s| && !IsWhiteSpace(s[i]);
        assert !AllWhiteSpace(s);
      } else {
        forall i | 0 <= i < |s| ensures IsWhiteSpace(s[i]) {
          assert !(0 <= i < |s| && !IsWhiteSpace(s[i]));
        }
        assert AllWhiteSpace(s);
      }
    }
  }

  /** Exactly the acceptable fields contribute no issue. */
  lemma FieldIssuesEmpty(o: Object)
    ensures FieldIssues(o) == [] <==>
      && FieldAcceptable("location", Get(o, "location"))
      && FieldAcceptable("temperatureCelsius", Get(o, "temperatureCelsius"))
      && FieldAcceptable("humidityPercentage", Get(o, "humidityPercentage"))
      && FieldAcceptable("pressureHpa", Get(o, "pressureHpa"))
  {
    LocationIssueNone(Get(o, "location"));
  }

  /** The schema accepts a body exactly when it is a sensor reading request. */
  lemma SensorDataAcceptedIff(body: Value)
    ensures SensorDataIssues(body) == [] <==> IsSensorReading(body)
  {
    if body.Object? {
      var o := body.fields;
      FieldIssuesEmpty(o);
      StrictIssueNone(o);
      assert SensorDataIssues(body) == FieldIssues(o) + Listed(StrictIssue(o));
      ReadingKeys(o);
    }
  }

  lemma StrictIssueNone(o: Object)
    ensures StrictIssue(o).None? <==> o.Keys <= InputFieldSet
  {
    if StrictIssue(o).None? {
      assert o.Keys - InputFieldSet == {};
    }
  }

  /** Exactly the four keys, each acceptable, is the same as no key outside
      the schema and each of the four acceptable (an absent key reads as
      `undefined`, which no field accepts). */
  lemma ReadingKeys(o: Object)
    ensures IsSensorReading(Object(o)) <==>
      && o.Keys <= InputFieldSet
      && FieldAcceptable("location", Get(o, "location"))
      && FieldAcceptable("temperatureCelsius", Get(o, "temperatureCelsius"))
      && FieldAcceptable("humidityPercentage", Get(o, "humidityPercentage"))
      && FieldAcceptable("pressureHpa", Get(o, "pressureHpa"))
  {
    if && o.Keys <= InputFieldSet
      && FieldAcceptable("location", Get(o, "location"))
      && FieldAcceptable("temperatureCelsius", Get(o, "temperatureCelsius"))
      && FieldAcceptable("humidityPercentage", Get(o, "humidityPercentage"))
      && FieldAcceptable("pressureHpa", Get(o, "pressureHpa"))
    {
      assert "location" in o && "temperatureCelsius" in o && "humidityPercentage" in o && "pressureHpa" in o;
      assert o.Keys == InputFieldSet;
    }
  }

  /** The paths that should be reported, in order: each declared field that
      is not acceptable, then the root when keys outside the schema are present. */
  function ExpectedFailingPaths(o: Object): seq<seq<string>>
  {
    (if FieldAcceptable("location", Get(o, "location")) then [] else [["location"]])
    + (if FieldAcceptable("temperatureCelsius", Get(o, "temperatureCelsius")) then [] else [["temperatureCelsius"]])
    + (if FieldAcceptable("humidityPercentage", Get(o, "humidityPercentage")) then [] else [["humidityPercentage"]])
    + (if FieldAcceptable("pressureHpa", Get(o, "pressureHpa")) then [] else [["pressureHpa"]])
    + (if o.Keys <= InputFieldSet then [] else [[]])
  }

  /** The reported paths are exactly the failing ones, in schema order:
      every failing field is reported at its own path (the schema does not
      stop at the first failure), no acceptable field is, and keys outside
      the schema are reported together at the root. */
  lemma FailingPathsExact(o: Object)
    ensures Paths(SensorDataIssues(Object(o))) == ExpectedFailingPaths(o)
  {
    var x := Listed(StrictIssue(o));
    PathsConcat(FieldIssues(o), x);
    FieldPaths(o);
    StrictIssueNone(o);
    assert Paths(x) == if o.Keys <= InputFieldSet then [] else [[]];
  }

  lemma FieldPaths(o: Object)
    ensures Paths(FieldIssues(o)) ==
      (if FieldAcceptable("location", Get(o, "location")) then [] else [["location"]])
      + (if FieldAcceptable("temperatureCelsius", Get(o, "temperatureCelsius")) then [] else [["temperatureCelsius"]])
      + (if FieldAcceptable("humidityPercentage", Get(o, "humidityPercentage")) then [] else [["humidityPercentage"]])
      + (if FieldAcceptable("pressureHpa", Get(o, "pressureHpa")) then [] else [["pressureHpa"]])
  {
    var l := Listed(LocationIssue(Get(o, "location")));
    var t := Listed(MeasurementIssue("temperatureCelsius", Get(o, "temperatureCelsius")));
    var h := Listed(MeasurementIssue("humidityPercentage", Get(o, "humidityPercentage")));
    var p := Listed(MeasurementIssue("pressureHpa", Get(o, "pressureHpa")));
    PathsConcat(l, t);
    PathsConcat(l + t, h);
    PathsConcat(l + t + h, p);
    LocationPaths(Get(o, "location"));
    MeasurementPaths("temperatureCelsius", Get(o, "temperatureCelsius"));
    MeasurementPaths("humidityPercentage", Get(o, "humidityPercentage"));
    MeasurementPaths("pressureHpa", Get(o, "pressureHpa"));
  }

  lemma LocationPaths(v: Value)
    ensures Paths(Listed(LocationIssue(v))) == if FieldAcceptable("location", v) then [] else [["location"]]
  {
    LocationIssueNone(v);
  }

  lemma MeasurementPaths(f: string, v: Value)
    requires f != "location"
    ensures Paths(Listed(MeasurementIssue(f, v))) == if FieldAcceptable(f, v) then [] else [[f]]
  {
  }

  /** Keys outside the schema are reported, together, in one root issue. */
  lemma ExtraKeysReported(o: Object)
    requires !(o.Keys <= InputFieldSet)
    ensures Issue([], LibraryUnrecognizedKeys(o.Keys - InputFieldSet)) in SensorDataIssues(Object(o))
  {
    var issues := SensorDataIssues(Object(o));
    assert issues[|issues| - 1] == Issue([], LibraryUnrecognizedKeys(o.Keys - InputFieldSet));
  }

  /** A location made only of white space fails with the schema's own text. */
  lemma BlankLocationRejected(o: Object)
    requires Get(o, "location").Str? && AllWhiteSpace(Get(o, "location").s)
    ensures Issue(["location"], Custom("Location must not be empty.")) in SensorDataIssues(Object(o))
  {
    var l := Issue(["location"], Custom(EmptyLocationMessage));
    assert Trim(Get(o, "location").s) == [];
    assert LocationIssue(Get(o, "location")) == Some(l);
    assert FieldIssues(o)[0] == l;
    assert SensorDataIssues(Object(o))[0] == l;
  }

  /** White space around a location is allowed: only the trimmed length is checked. */
  lemma PaddedLocationAccepted(s: string)
    requires HasNonWhiteSpace(s)
    ensures LocationIssue(Str(s)) == None
    ensures LocationIssue(Str(" " + s + "\t")) == None
  {
    var padded := " " + s + "\t";
    var i :| 0 <= i < |s| && !IsWhiteSpace(s[i]);
    assert padded[i + 1] == s[i];
    LocationIssueNone(Str(s));
    LocationIssueNone(Str(padded));
  }

  /** A present measurement that is not a number fails with its field's own text;
      a missing one fails with the library's "required" text. */
  lemma WrongMeasurementRejected(o: Object, f: string)
    requires f == "temperatureCelsius" || f == "humidityPercentage" || f == "pressureHpa"
    requires !Get(o, f).Number?
    ensures Get(o, f) != Undefined ==> Issue([f], Custom(TypeMessage(f))) in SensorDataIssues(Object(o))
    ensures Get(o, f) == Undefined ==> Issue([f], LibraryRequired) in SensorDataIssues(Object(o))
  {
    var issues := SensorDataIssues(Object(o));
    var l := Listed(LocationIssue(Get(o, "location")));
    var t := Listed(MeasurementIssue("temperatureCelsius", Get(o, "temperatureCelsius")));
    var h := Listed(MeasurementIssue("humidityPercentage", Get(o, "humidityPercentage")));
    var p := Listed(MeasurementIssue("pressureHpa", Get(o, "pressureHpa")));
    var x := Listed(StrictIssue(o));
    assert issues == l + t + h + p + x;
    var m := if Get(o, f) == Undefined then LibraryRequired else Custom(TypeMessage(f));
    if f == "temperatureCelsius" {
      assert issues[|l|] == Issue([f], m);
    } else if f == "humidityPercentage" {
      assert issues[|l + t|] == Issue([f], m);
    } else {
      assert issues[|l + t + h|] == Issue([f], m);
    }
  }

  /** The three measurement texts. */
  lemma MeasurementMessages()
    ensures TypeMessage("temperatureCelsius") == "Temperature must be a number."
    ensures TypeMessage("humidityPercentage") == "Humidity percentage must be a number."
    ensures TypeMessage("pressureHpa") == "Pressure HPA must be a number."
  {
  }

  /** The storage schema's name for humidity is not a request field, so a
      request that uses it is rejected. */
  lemma StorageHumidityNameRejected(o: Object)
    requires "humidityPercent" in o
    ensures SensorDataIssues(Object(o)) != []
    ensures !IsSensorReading(Object(o))
  {
    assert "humidityPercent" in o.Keys - InputFieldSet;
    ExtraKeysReported(o);
    SensorDataAcceptedIff(Object(o));
  }

  /** The documented `ValidationErrors` example, generalised: a blank
      location and a temperature sent as text, with the other fields
      acceptable, give exactly those two issues, in schema order, with the
      schema's own texts. */
  lemma DocumentedErrorExample(o: Object)
    requires o.Keys <= InputFieldSet
    requires Get(o, "location").Str? && AllWhiteSpace(Get(o, "location").s)
    requires Get(o, "temperatureCelsius").Str?
    requires Get(o, "humidityPercentage").Number? && Get(o, "pressureHpa").Number?
    ensures SensorDataIssues(Object(o)) ==
      [Issue(["location"], Custom("Location must not be empty.")),
       Issue(["temperatureCelsius"], Custom("Temperature must be a number."))]
  {
    var l := Issue(["location"], Custom(EmptyLocationMessage));
    var t := Issue(["temperatureCelsius"], Custom(TypeMessage("temperatureCelsius")));
    assert LocationIssue(Get(o, "location")) == Some(l);
    assert MeasurementIssue("temperatureCelsius", Get(o, "temperatureCelsius")) == Some(t);
    assert MeasurementIssue("humidityPercentage", Get(o, "humidityPercentage")) == None;
    assert MeasurementIssue("pressureHpa", Get(o, "pressureHpa")) == None;
    StrictIssueNone(o);
    assert FieldIssues(o) == [l] + [t] + [] + [];
    assert TypeMessage("temperatureCelsius") == "Temperature must be a number.";
  }

  /** The storage record's fields versus the request's: the storage schema
      names humidity `humidityPercent`, the request `humidityPercentage`. */
  lemma StorageAndInputFields()
    ensures "humidityPercentage" !in StorageFields
    ensures InputFieldSet - StorageFields == {"humidityPercentage"}
    ensures StorageFields - InputFieldSet == {"timestamp", "humidityPercent"}
  {
  }
}
