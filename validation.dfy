/** The required-field scanner `validation.isEmpty` (backend/utils/validation.js). */
module Validation {
  import opened Json
  import opened JsString
  import opened Tables

  /** A required field is missing when its value is `''` or `undefined`; `0`, `null` and `false` are present. */
  predicate IsBlank(v: JsValue) {
    v == Str("") || v == Undefined
  }

  /** The required names after `trim()`, in order. */
  function TrimAll(required: seq<string>): seq<string> {
    seq(|required|, i requires 0 <= i < |required| => Trim(required[i]))
  }

  /** The test `isEmpty` applies to each name, as a predicate on names. */
  function BlankIn(obj: map<string, JsValue>): string -> bool {
    (name: string) => IsBlank(Get(obj, name))
  }

  /** The trimmed required names whose value in `obj` is blank, scanning `required` front to back. */
  function Missing(obj: map<string, JsValue>, required: seq<string>): seq<string> {
    if required == [] then []
    else
      var name := Trim(required[|required| - 1]);
      Missing(obj, required[..|required| - 1]) + (if IsBlank(Get(obj, name)) then [name] else [])
  }

  /** `isEmpty(obj, required)`: collects the missing names into a fresh array; `obj` is only read. */
  method IsEmpty(obj: map<string, JsValue>, required: seq<string>) returns (requiredItems: seq<string>)
    ensures requiredItems == Missing(obj, required)
  {
    requiredItems := [];
    for i := 0 to |required|
      invariant requiredItems == Missing(obj, required[..i])
    {
      var item := Trim(required[i]);
      var value := Get(obj, item);
      if (value == Str("") || value == Undefined) && value != Num(0) {
        requiredItems := requiredItems + [item];
      }
      assert required[..i + 1][..i] == required[..i];
    }
    assert required[..|required|] == required;
  }

  lemma TrimAllSnoc(required: seq<string>)
    requires required != []
    ensures TrimAll(required) == TrimAll(required[..|required| - 1]) + [Trim(required[|required| - 1])]
  {
    var front := required[..|required| - 1];
    assert forall i :: 0 <= i < |front| ==> front[i] == required[i];
  }

  /**
   * The scan is exactly a filter of the trimmed names: the result lists the
   * blank ones and nothing else, in the order of `required`.
   */
  lemma {:induction false} MissingIsFilter(obj: map<string, JsValue>, required: seq<string>)
    ensures Missing(obj, required) == Filter(TrimAll(required), BlankIn(obj))
  {
    var p := BlankIn(obj);
    if required != [] {
      var n := |required|;
      var front, last := required[..n - 1], Trim(required[n - 1]);
      MissingIsFilter(obj, front);
      TrimAllSnoc(required);
      FilterAppend(TrimAll(front), [last], p);
      assert Filter([last], p) == if p(last) then [last] else [] by {
        assert [last][1..] == [];
      }
    }
  }

  /** A name is reported iff it is one of the trimmed required names and its value is blank. */
  lemma MissingExactly(obj: map<string, JsValue>, required: seq<string>, name: string)
    ensures name in Missing(obj, required) <==> name in TrimAll(required) && IsBlank(Get(obj, name))
  {
    MissingIsFilter(obj, required);
  }

  /** Fields holding `0` or `null` count as present and are never reported. */
  lemma ZeroAndNullArePresent(obj: map<string, JsValue>, required: seq<string>, name: string)
    requires name in obj && (obj[name] == Num(0) || obj[name] == Null)
    ensures name !in Missing(obj, required)
  {
    MissingExactly(obj, required, name);
  }

  /** The result is empty iff every required field is present. */
  lemma NothingMissingIff(obj: map<string, JsValue>, required: seq<string>)
    ensures Missing(obj, required) == [] <==> forall i :: 0 <= i < |required| ==> !IsBlank(Get(obj, Trim(required[i])))
  {
    if Missing(obj, required) != [] {
      var m := Missing(obj, required)[0];
      MissingExactly(obj, required, m);
      var i :| 0 <= i < |TrimAll(required)| && TrimAll(required)[i] == m;
      assert !IsBlank(Get(obj, Trim(required[i]))) == false;
    } else {
      forall i | 0 <= i < |required| ensures !IsBlank(Get(obj, Trim(required[i]))) {
        MissingExactly(obj, required, Trim(required[i]));
        assert TrimAll(required)[i] == Trim(required[i]);
      }
    }
  }
}
