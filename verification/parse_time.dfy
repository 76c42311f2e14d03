/**
 * `ParseTime` of `server/models/stock.go`: a date-time text is tried against
 * three layouts in a fixed order and the first layout that parses wins. Go's
 * `time.Parse` is a parameter; only the order of attempts and the choice of
 * result and error are modelled.
 */
module TimeLayouts {
  import opened Wrappers

  /** Day first, then month first, then ISO order, each with a 24-hour time. */
  const Layouts: seq<string> := ["02/01/2006 15:04:05", "01/02/2006 15:04:05", "2006-01-02 15:04:05"]

  /** The result of trying `layouts` in order: the first successful parse, or
      the error of the last layout when none parses. */
  function FirstParse<T, E>(parse: (string, string) -> Result<T, E>, layouts: seq<string>, s: string)
      : (r: Result<T, E>)
    requires |layouts| > 0
    ensures r.Success? <==> exists i :: 0 <= i < |layouts| && parse(layouts[i], s).Success?
    ensures r.Success? ==>
      exists i :: 0 <= i < |layouts| && r == parse(layouts[i], s)
                 && forall j :: 0 <= j < i ==> parse(layouts[j], s).Failure?
    ensures r.Failure? ==> r == parse(layouts[|layouts| - 1], s)
    decreases |layouts|
  {
    if |layouts| == 1 then parse(layouts[0], s)
    else match parse(layouts[0], s)
      case Success(t) => Success(t)
      case Failure(_) =>
        var r := FirstParse(parse, layouts[1..], s);
        assert forall i :: 0 <= i < |layouts| - 1 ==> layouts[1..][i] == layouts[i + 1];
        r
  }

  /** `ParseTime`: the loop over the layouts, remembering the latest error. The
      zero `time.Time` that accompanies an error is not represented. */
  method ParseTime<T, E>(parse: (string, string) -> Result<T, E>, timeStr: string) returns (r: Result<T, E>)
    ensures r == FirstParse(parse, Layouts, timeStr)
  {
    var parseError: Option<E> := None;
    var i := 0;
    while i < |Layouts|
      invariant 0 <= i <= |Layouts|
      invariant i < |Layouts| ==> FirstParse(parse, Layouts, timeStr) == FirstParse(parse, Layouts[i..], timeStr)
      invariant i == |Layouts| ==> parseError.Some? && FirstParse(parse, Layouts, timeStr) == Failure(parseError.value)
    {
      match parse(Layouts[i], timeStr)
      case Success(t) =>
        return Success(t);
      case Failure(err) =>
        parseError := Some(err);
        assert i + 1 < |Layouts| ==> Layouts[i..][1..] == Layouts[i + 1..];
        i := i + 1;
    }
    return Failure(parseError.value);
  }

  /** A text that reads as both day/month and month/day is taken as
      day/month: the first layout is never overridden by a later one. */
  lemma DayMonthFirst<T, E>(parse: (string, string) -> Result<T, E>, s: string)
    requires parse(Layouts[0], s).Success?
    ensures FirstParse(parse, Layouts, s) == parse(Layouts[0], s)
  {
  }

  /** When the two slash layouts fail, the ISO layout decides. */
  lemma IsoLast<T, E>(parse: (string, string) -> Result<T, E>, s: string)
    requires parse(Layouts[0], s).Failure? && parse(Layouts[1], s).Failure?
    ensures FirstParse(parse, Layouts, s) == parse(Layouts[2], s)
  {
    assert Layouts[1..][1..] == [Layouts[2]];
  }

  /** When every layout fails, the error reported is the ISO layout's. */
  lemma LastError<T, E>(parse: (string, string) -> Result<T, E>, s: string)
    requires forall i :: 0 <= i < |Layouts| ==> parse(Layouts[i], s).Failure?
    ensures FirstParse(parse, Layouts, s) == Failure(parse(Layouts[2], s).error)
  {
    IsoLast(parse, s);
  }
}
