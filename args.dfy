/**
 * The game's `ArgUtility` readers, as the query and the trigger actions use them
 * on a space-split argument array. A reader either yields a value or an error
 * naming the offending index; the engine's wording of the error is not modelled.
 */
module Args {
  import opened Wrappers
  import opened Text
  import opened Models

  datatype ArgError =
    | MissingIndex(index: nat)   // a required index is past the end of the array
    | BlankValue(index: nat)     // a required value is null, empty or white space
    | Unparsable(index: nat)     // a value is present but does not parse

  /** `ArgUtility.HasIndex`. */
  predicate HasIndex(args: seq<string>, index: nat) {
    index < |args|
  }

  /** `ArgUtility.TryGet(args, index, …, allowBlank: false)`: a required, non-blank string. */
  function TryGetRequired(args: seq<string>, index: nat): (r: Result<string, ArgError>)
    ensures r.Success? <==> HasIndex(args, index) && !IsNullOrWhiteSpace(Some(args[index]))
    ensures r.Success? ==> r.value == args[index]
    ensures !HasIndex(args, index) ==> r == Failure(MissingIndex(index))
  {
    if !HasIndex(args, index) then Failure(MissingIndex(index))
    else if IsNullOrWhiteSpace(Some(args[index])) then Failure(BlankValue(index))
    else Success(args[index])
  }

  /** `ArgUtility.TryGetOptionalInt`: the default when the index is absent, otherwise `int.TryParse`. */
  function TryGetOptionalInt(args: seq<string>, index: nat, default: int): (r: Result<int, ArgError>)
    ensures !HasIndex(args, index) ==> r == Success(default)
    ensures HasIndex(args, index) ==>
      (r.Success? <==> ParseInt32(args[index]).Some?) && (r.Success? ==> r.value == ParseInt32(args[index]).value)
  {
    if !HasIndex(args, index) then Success(default)
    else match ParseInt32(args[index])
      case Some(n) => Success(n)
      case None => Failure(Unparsable(index))
  }

  /** `ArgUtility.TryGetOptionalBool`: the default when the index is absent, otherwise `bool.TryParse`. */
  function TryGetOptionalBool(args: seq<string>, index: nat, default: bool): (r: Result<bool, ArgError>)
    ensures !HasIndex(args, index) ==> r == Success(default)
    ensures HasIndex(args, index) ==>
      (r.Success? <==> ParseBool(args[index]).Some?) && (r.Success? ==> r.value == ParseBool(args[index]).value)
  {
    if !HasIndex(args, index) then Success(default)
    else match ParseBool(args[index])
      case Some(b) => Success(b)
      case None => Failure(Unparsable(index))
  }

  /** `ArgUtility.TryGetOptionalRemainder(args, index, …, delimiter: ' ')`: the rest of the array joined by spaces, or the default. */
  function TryGetOptionalRemainder(args: seq<string>, index: nat, default: string): (r: string)
    ensures !HasIndex(args, index) ==> r == default
    ensures HasIndex(args, index) ==> r == Join(args[index..], " ")
  {
    if HasIndex(args, index) then Join(args[index..], " ") else default
  }

  /** The remainder after `index` is empty exactly when there are no more arguments, or one empty one. */
  lemma RemainderEmpty(args: seq<string>, index: nat)
    ensures TryGetOptionalRemainder(args, index, "") == ""
        <==> !HasIndex(args, index) || (|args| == index + 1 && args[index] == "")
  {
    if HasIndex(args, index) {
      JoinEmpty(args[index..], " ");
    }
  }

  /** `ArgUtility.TryGetVector2(args, index, …)`: a tile from the two values at `index` and `index + 1`. */
  function TryGetTile(args: seq<string>, index: nat): (r: Result<Tile, ArgError>)
    ensures r.Success? <==> index + 1 < |args| && ParseInt32(args[index]).Some? && ParseInt32(args[index + 1]).Some?
    ensures r.Success? ==> r.value == Tile(ParseInt32(args[index]).value, ParseInt32(args[index + 1]).value)
  {
    if !HasIndex(args, index) then Failure(MissingIndex(index))
    else if !HasIndex(args, index + 1) then Failure(MissingIndex(index + 1))
    else match (ParseInt32(args[index]), ParseInt32(args[index + 1]))
      case (Some(x), Some(y)) => Success(Tile(x, y))
      case (None, _) => Failure(Unparsable(index))
      case (_, None) => Failure(Unparsable(index + 1))
  }
}
