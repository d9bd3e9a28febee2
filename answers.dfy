/**
 * Stored answers, the required-field check of `handleNext` and the
 * answer updates of `handleInputChange` and `handleMultiSelectChange`
 * (src/components/Form.tsx).
 */
module Answers {
  import opened Wrappers
  import opened Questionnaire

  /**
   * A stored answer: the string of a text, email, url, select or textarea
   * input, or the list of options picked in a multiselect.
   */
  datatype Answer = Single(text: string) | Multi(items: seq<string>)

  /** `answers[id]`: the answer stored under `id`, or `undefined`. */
  function Get(answers: map<string, Answer>, id: string): Option<Answer>
  {
    if id in answers then Some(answers[id]) else None
  }

  // ---------------------------------------------------------------------
  // String.prototype.trim

  /**
   * The characters `String.prototype.trim` strips: the ECMAScript
   * WhiteSpace code points (tab, vertical tab, form feed, space, no-break
   * space, zero width no-break space and the Unicode space separators) and
   * the LineTerminator code points.
   */
  predicate IsWhitespace(c: char)
  {
    || c == '\t' || c == '\U{000B}' || c == '\U{000C}' || c == ' ' || c == '\U{00A0}' || c == '\U{FEFF}'
    || c == '\U{1680}' || ('\U{2000}' <= c <= '\U{200A}') || c == '\U{202F}' || c == '\U{205F}' || c == '\U{3000}'
    || c == '\n' || c == '\r' || c == '\U{2028}' || c == '\U{2029}'
  }

  /** `s` with its leading white space removed. */
  function TrimStart(s: string): (r: string)
    ensures |r| <= |s| && r == s[|s| - |r|..]
    ensures r == [] || !IsWhitespace(r[0])
    ensures forall i :: 0 <= i < |s| - |r| ==> IsWhitespace(s[i])
  {
    if s != [] && IsWhitespace(s[0]) then TrimStart(s[1..]) else s
  }

  /** `s` with its trailing white space removed. */
  function TrimEnd(s: string): (r: string)
    ensures |r| <= |s| && r == s[..|r|]
    ensures r == [] || !IsWhitespace(r[|r| - 1])
    ensures forall i :: |r| <= i < |s| ==> IsWhitespace(s[i])
  {
    if s != [] && IsWhitespace(s[|s| - 1]) then TrimEnd(s[..|s| - 1]) else s
  }

  /**
   * `s.trim()`: the slice of `s` left once its leading and trailing white
   * space is removed. It is empty exactly when every character of `s` is
   * white space, and otherwise starts and ends with a character that is not.
   */
  function Trim(s: string): (r: string)
    ensures var a := |s| - |TrimStart(s)|;
      && a + |r| <= |s| && r == s[a..a + |r|]
      && (forall i :: 0 <= i < a ==> IsWhitespace(s[i]))
      && (forall i :: a + |r| <= i < |s| ==> IsWhitespace(s[i]))
    ensures r == [] <==> forall i :: 0 <= i < |s| ==> IsWhitespace(s[i])
    ensures r != [] ==> !IsWhitespace(r[0]) && !IsWhitespace(r[|r| - 1])
  {
    TrimEnd(TrimStart(s))
  }

  // ---------------------------------------------------------------------
  // The required-field check

  /** JavaScript truthiness of a stored answer: `undefined` and `""` are falsy, every array is truthy. */
  predicate Truthy(a: Option<Answer>)
  {
    a.Some? && a.value != Single("")
  }

  /**
   * The condition under which `handleNext` refuses a required question:
   * `!a || (Array.isArray(a) && a.length === 0) || (typeof a === 'string' && !a.trim())`.
   * It holds exactly when nothing was answered, when no option is picked,
   * or when the string holds nothing but white space (the empty string
   * included).
   */
  predicate IsBlank(a: Option<Answer>)
    ensures IsBlank(a) <==>
      || a == None
      || a == Some(Multi([]))
      || (a.Some? && a.value.Single? && forall i :: 0 <= i < |a.value.text| ==> IsWhitespace(a.value.text[i]))
  {
    || !Truthy(a)
    || (a.value.Multi? && |a.value.items| == 0)
    || (a.value.Single? && Trim(a.value.text) == "")
  }

  /** Question `i` lets `handleNext` go on: it is optional, or its answer is not blank. */
  predicate Passes(answers: map<string, Answer>, i: int)
    requires 0 <= i < |Questions|
  {
    Questions[i].required ==> !IsBlank(Get(answers, Questions[i].id))
  }

  // ---------------------------------------------------------------------
  // Multiselect toggling

  /** No option appears twice. */
  predicate NoDup(xs: seq<string>)
  {
    forall i, j :: 0 <= i < j < |xs| ==> xs[i] != xs[j]
  }

  /** The options picked so far under `id`: the stored list, or `[]` when the stored value is not a list. */
  function Selected(answers: map<string, Answer>, id: string): seq<string>
  {
    if id in answers && answers[id].Multi? then answers[id].items else []
  }

  /** `xs.filter(item => item !== v)`: every occurrence of `v` dropped, the rest in order. */
  function Remove(xs: seq<string>, v: string): (r: seq<string>)
    ensures forall w :: w in r <==> w in xs && w != v
    ensures multiset(r) == multiset(xs)[v := 0]
    ensures |r| <= |xs|
  {
    if xs == [] then []
    else
      assert xs == [xs[0]] + xs[1..];
      if xs[0] == v then Remove(xs[1..], v)
      else [xs[0]] + Remove(xs[1..], v)
  }

  /**
   * The list `handleMultiSelectChange` stores: `v` removed if it was picked,
   * appended otherwise. Membership of `v` flips; every other option keeps
   * its membership.
   */
  function Toggle(xs: seq<string>, v: string): (r: seq<string>)
    ensures v in r <==> v !in xs
    ensures forall w :: w != v ==> (w in r <==> w in xs)
  {
    if v in xs then Remove(xs, v) else xs + [v]
  }

  lemma {:induction false} RemoveAbsent(xs: seq<string>, v: string)
    requires v !in xs
    ensures Remove(xs, v) == xs
  {
    if xs != [] {
      RemoveAbsent(xs[1..], v);
    }
  }

  /** Filtering works element by element: it distributes over concatenation, so the kept elements stay in order. */
  lemma {:induction false} RemoveConcat(a: seq<string>, b: seq<string>, v: string)
    ensures Remove(a + b, v) == Remove(a, v) + Remove(b, v)
  {
    if a == [] {
      assert [] + b == b;
    } else {
      assert (a + b)[0] == a[0];
      assert (a + b)[1..] == a[1..] + b;
      RemoveConcat(a[1..], b, v);
    }
  }

  lemma {:induction false} RemoveAppended(xs: seq<string>, v: string)
    ensures Remove(xs + [v], v) == Remove(xs, v)
  {
    if xs == [] {
      assert [] + [v] == [v];
      assert [v][1..] == [];
    } else {
      assert (xs + [v])[1..] == xs[1..] + [v];
      RemoveAppended(xs[1..], v);
    }
  }

  lemma {:induction false} RemoveKeepsNoDup(xs: seq<string>, v: string)
    requires NoDup(xs)
    ensures NoDup(Remove(xs, v))
  {
    if xs != [] {
      var tail := xs[1..];
      assert NoDup(tail) by {
        forall i, j | 0 <= i < j < |tail| ensures tail[i] != tail[j] {
          assert tail[i] == xs[i + 1] && tail[j] == xs[j + 1];
        }
      }
      RemoveKeepsNoDup(tail, v);
      if xs[0] != v {
        var rest := Remove(tail, v);
        assert xs[0] !in tail by {
          forall j | 0 <= j < |tail| ensures tail[j] != xs[0] {
            assert tail[j] == xs[j + 1];
          }
        }
        assert xs[0] !in rest;
        var r := [xs[0]] + rest;
        forall i, j | 0 <= i < j < |r| ensures r[i] != r[j] {
          if i == 0 {
            assert r[j] == rest[j - 1];
          } else {
            assert r[i] == rest[i - 1] && r[j] == rest[j - 1];
          }
        }
      }
    }
  }

  /** Toggling an option that was not picked, twice, gives back exactly the list it started from. */
  lemma ToggleTwiceRestores(xs: seq<string>, v: string)
    requires v !in xs
    ensures Toggle(Toggle(xs, v), v) == xs
  {
    RemoveAppended(xs, v);
    RemoveAbsent(xs, v);
  }

  /**
   * Toggling an option twice always leaves the same options picked; when
   * the option was picked, it moves to the end of the list.
   */
  lemma ToggleTwiceSameOptions(xs: seq<string>, v: string)
    ensures forall w :: w in Toggle(Toggle(xs, v), v) <==> w in xs
    ensures v in xs ==> Toggle(Toggle(xs, v), v) == Remove(xs, v) + [v]
  {
  }

  /** A list without repeated options keeps that property under a toggle. */
  lemma ToggleKeepsNoDup(xs: seq<string>, v: string)
    requires NoDup(xs)
    ensures NoDup(Toggle(xs, v))
  {
    if v in xs {
      RemoveKeepsNoDup(xs, v);
    } else {
      var r := xs + [v];
      forall i, j | 0 <= i < j < |r| ensures r[i] != r[j] {
        if j == |xs| {
          assert r[i] == xs[i];
        } else {
          assert r[i] == xs[i] && r[j] == xs[j];
        }
      }
    }
  }
}
