/** Numeric parsing. The converter parses with strconv.Atoi and strconv.ParseFloat
    and normalises with math.Sqrt; all three are library code, so the model takes
    them as a `Runtime` value supplied by the caller. */
module Numbers {
  import opened Results

  /** The library collaborators: Atoi, ParseFloat (None where they report an
      error) and Sqrt (computed over reals instead of float64). */
  datatype Runtime = Runtime(
    atoi: string -> Option<int>,
    parseFloat: string -> Option<real>,
    sqrt: real -> real)

  /** stringToInt: Atoi, with a parse error ending the conversion. */
  function StringToInt(rt: Runtime, s: string): (r: Result<int>)
    ensures r.Ok? <==> rt.atoi(s).Some?
    ensures r.Ok? ==> r.value == rt.atoi(s).value
    ensures r.Err? ==> r.error == MalformedNumber
  {
    match rt.atoi(s)
    case Some(i) => Ok(i)
    case None => Err(MalformedNumber)
  }

  /** stringsToFloats: parses every token, in order; the result has one number
      per token, and any unparseable token ends the conversion. */
  function StringsToFloats(rt: Runtime, ss: seq<string>): (r: Result<seq<real>>)
    ensures r.Ok? <==> forall i :: 0 <= i < |ss| ==> rt.parseFloat(ss[i]).Some?
    ensures r.Ok? ==> |r.value| == |ss|
    ensures r.Ok? ==> forall i :: 0 <= i < |ss| ==> r.value[i] == rt.parseFloat(ss[i]).value
    ensures r.Err? ==> r.error == MalformedNumber
    decreases |ss|
  {
    if |ss| == 0 then Ok([])
    else
      match rt.parseFloat(ss[0])
      case None => Err(MalformedNumber)
      case Some(f) =>
        var rest :- StringsToFloats(rt, ss[1..]);
        Ok([f] + rest)
  }
}
