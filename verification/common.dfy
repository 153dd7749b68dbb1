/** Shared value types: an optional value, the error conditions of the engine,
    and a result that carries either a value or one of those errors. */
module Common {

  /** A value that may be missing (NaN in the signal track, no regex match, ...). */
  datatype Option<+T> = None | Some(value: T)

  /** Why a whole annotation line was rejected with an exception. */
  datatype LineFault =
    | TooManyFields    // nine-name unpacking of a line with more than nine fields
    | NotAnInteger     // int() of a start or end field that is not a decimal integer

  /** The exceptions the engine raises; any one of them aborts the whole run. */
  datatype Error =
    | BadLine(line: nat, fault: LineFault)         // parse_gff, with the 0-based line number
    | InvalidStrand(strand: string)                // a strand other than "+" or "-"
    | EmptyWindow(chrom: string, start: int)       // a window with start == end cannot be averaged
    | NoSamples                                    // concatenating zero sample tables

  datatype Result<+T> = Ok(value: T) | Err(error: Error)

  /** A loop that applies f to every element in order, appending each result;
      the first element whose f raises aborts the loop with that error. */
  function MapResults<T, U>(xs: seq<T>, f: T -> Result<U>): (r: Result<seq<U>>)
    ensures r.Ok? <==> forall i | 0 <= i < |xs| :: f(xs[i]).Ok?
    ensures r.Ok? ==> |r.value| == |xs| && forall i | 0 <= i < |xs| :: f(xs[i]) == Ok(r.value[i])
    ensures r.Err? ==> exists i | 0 <= i < |xs| ::
      && f(xs[i]) == Err(r.error)
      && forall j | 0 <= j < i :: f(xs[j]).Ok?
  {
    if xs == [] then Ok([])
    else
      var n := |xs| - 1;
      assert forall i | 0 <= i < n :: xs[..n][i] == xs[i];
      match MapResults(xs[..n], f)
      case Err(e) => Err(e)
      case Ok(ys) =>
        match f(xs[n])
        case Err(e) => Err(e)
        case Ok(y) => Ok(ys + [y])
  }

  /** The first element whose f raises decides the error of the loop. */
  lemma FirstErrorAborts<T, U>(xs: seq<T>, f: T -> Result<U>, i: nat)
    requires i < |xs|
    requires MapResults(xs[..i], f).Ok?
    requires f(xs[i]).Err?
    ensures MapResults(xs, f) == Err(f(xs[i]).error)
  {
    assert forall j | 0 <= j < i :: xs[..i][j] == xs[j];
    var r := MapResults(xs, f);
    var k :| 0 <= k < |xs| && f(xs[k]) == Err(r.error) && forall j | 0 <= j < k :: f(xs[j]).Ok?;
    assert k == i;
  }

  /** One more element that succeeds extends the results by its value. */
  lemma MapResultsStep<T, U>(xs: seq<T>, f: T -> Result<U>, i: nat, ys: seq<U>)
    requires i < |xs|
    requires MapResults(xs[..i], f) == Ok(ys)
    requires f(xs[i]).Ok?
    ensures MapResults(xs[..i + 1], f) == Ok(ys + [f(xs[i]).value])
  {
    assert xs[..i + 1][..i] == xs[..i];
  }
}
