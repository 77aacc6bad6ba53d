/**
 * The query-string normalisation of the power-plant map endpoints: turning
 * the `state`/`province` parameter into a list of names or no filter, and
 * the `fuel_type`/`operating_status` parameter into a list of values split
 * at commas, or no filter.
 */
module MapQuery {
  import opened Wrappers
  import opened Text

  /** A parsed query parameter: missing, one value, or a repeated parameter. */
  datatype QueryValue = Absent | Str(s: string) | Arr(items: seq<string>)

  /** JavaScript truthiness of the parameter: an array is truthy even when empty. */
  predicate Truthy(q: QueryValue) {
    match q
    case Absent => false
    case Str(s) => s != ""
    case Arr(_) => true
  }

  /** `String(value)`: an array becomes its items joined with commas. */
  function Stringify(q: QueryValue): string
    requires q != Absent
  {
    match q
    case Str(s) => s
    case Arr(items) => Join(items, ',')
  }

  /** The values a truthy `state` stands for: the array's items, or the one value. */
  function Items(q: QueryValue): seq<string>
    requires q != Absent
  {
    if q.Arr? then q.items else [q.s]
  }

  /**
   * The `state` (and `province`) parameter: no filter when it is missing or
   * empty, or when it yields no value or a single empty one; otherwise every
   * value it carries, in order.
   */
  method NormalizeStates(state: QueryValue) returns (states: Option<seq<string>>)
    ensures states.None? <==>
              !Truthy(state) || (state.Arr? && (state.items == [] || state.items == [""]))
    ensures states.Some? ==> states.value == Items(state) && states.value != [] && states.value != [""]
  {
    states := None;
    if Truthy(state) {
      var values: seq<string>;
      if state.Arr? {
        values := state.items;
      } else {
        values := [state.s];
      }
      states := Some(values);
      if |values| == 0 || (|values| == 1 && values[0] == "") {
        states := None;
      }
    }
  }

  /** `parts.filter(f => f.trim())`: the parts that are not blank, in order. */
  function NonBlank(parts: seq<string>): (r: seq<string>)
    ensures |r| <= |parts|
  {
    if parts == [] then []
    else (if Trim(parts[0]) != "" then [parts[0]] else []) + NonBlank(parts[1..])
  }

  /** The filter keeps exactly the parts that are not blank, and keeps them all when none is. */
  lemma NonBlankMeaning(parts: seq<string>)
    ensures forall x :: x in NonBlank(parts) <==> x in parts && Trim(x) != ""
    ensures (forall i :: 0 <= i < |parts| ==> Trim(parts[i]) != "") ==> NonBlank(parts) == parts
  {
    NonBlankIn(parts);
    if forall i :: 0 <= i < |parts| ==> Trim(parts[i]) != "" {
      NonBlankAll(parts);
    }
  }

  lemma {:induction false} NonBlankIn(parts: seq<string>)
    ensures forall x :: x in NonBlank(parts) <==> x in parts && Trim(x) != ""
  {
    if parts != [] {
      NonBlankIn(parts[1..]);
      assert parts == [parts[0]] + parts[1..];
    }
  }

  lemma {:induction false} NonBlankAll(parts: seq<string>)
    requires forall i :: 0 <= i < |parts| ==> Trim(parts[i]) != ""
    ensures NonBlank(parts) == parts
  {
    if parts != [] {
      NonBlankAll(parts[1..]);
      assert parts == [parts[0]] + parts[1..];
    }
  }

  /**
   * The `fuel_type` (and `operating_status`) parameter: no filter when it is
   * missing or empty; a value holding a comma is split there and its blank
   * parts dropped, with no filter when nothing is left; any other value is
   * the only one. An array is first joined with commas.
   */
  method NormalizeList(value: QueryValue) returns (values: Option<seq<string>>)
    ensures !Truthy(value) ==> values.None?
    ensures Truthy(value) && ',' !in Stringify(value) ==> values == Some([Stringify(value)])
    ensures Truthy(value) && ',' in Stringify(value) ==>
              var kept := NonBlank(Split(Stringify(value), ','));
              values == (if kept == [] then None else Some(kept))
  {
    values := None;
    if Truthy(value) {
      var text := Stringify(value);
      var list: seq<string>;
      if ',' in text {
        list := NonBlank(Split(text, ','));
      } else {
        list := [text];
      }
      values := Some(list);
      if |list| == 0 {
        values := None;
      }
    }
  }

  /** What the split-and-filter branch yields, stated for any text. */
  function SplitValues(text: string): seq<string>
  {
    NonBlank(Split(text, ','))
  }

  /**
   * Every value of a comma-bearing parameter is free of commas and not
   * blank; when no part is blank, joining the values with commas gives the
   * parameter back.
   */
  lemma SplitValuesMeaning(text: string)
    ensures forall i :: 0 <= i < |SplitValues(text)| ==>
              ',' !in SplitValues(text)[i] && Trim(SplitValues(text)[i]) != ""
    ensures (forall i :: 0 <= i < |Split(text, ',')| ==> Trim(Split(text, ',')[i]) != "") ==>
              Join(SplitValues(text), ',') == text
  {
    SplitJoin(text, ',');
    NonBlankMeaning(Split(text, ','));
    forall i | 0 <= i < |SplitValues(text)|
      ensures ',' !in SplitValues(text)[i] && Trim(SplitValues(text)[i]) != ""
    {
      assert SplitValues(text)[i] in SplitValues(text);
    }
  }

  /**
   * A repeated parameter of at least two comma-free, non-blank values comes
   * back as exactly those values.
   */
  lemma RepeatedValues(items: seq<string>)
    requires |items| >= 2
    requires forall i :: 0 <= i < |items| ==> ',' !in items[i] && Trim(items[i]) != ""
    ensures ',' in Stringify(Arr(items))
    ensures SplitValues(Stringify(Arr(items))) == items
  {
    JoinSplit(items, ',');
    NonBlankMeaning(items);
    assert Join(items, ',') == items[0] + [','] + Join(items[1..], ',');
    assert Join(items, ',')[|items[0]|] == ',';
  }
}
