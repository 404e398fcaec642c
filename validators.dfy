/** The two hand-written validators: `DoubleValidator` of the api app (the
    selected fields of a value must hold pairwise distinct values) and the
    reserved-username check of the users app. */
module Validators {
  import opened Common

  /** What raising `ValidationError(None)` reports. */
  const DefaultMessage := "Invalid input."

  /** The result of running a validator on a value: it passes, it raises a
      validation error with a message, or the lookup of a selected field
      fails (a KeyError) before anything is compared. */
  datatype Outcome = Passed | Invalid(message: string) | MissingField(field: string)

  /** `[value[f] for f in fields]`: the values of the selected fields in
      order, or the first field the value lacks. */
  function SelectedValues<V>(fields: seq<string>, value: map<string, V>): (r: Result<seq<V>, string>)
    ensures r.Ok? <==> forall f :: f in fields ==> f in value
    ensures r.Ok? ==> |r.value| == |fields| && forall i :: 0 <= i < |fields| ==> r.value[i] == value[fields[i]]
    ensures r.Err? ==> exists k :: 0 <= k < |fields| && fields[k] == r.error && r.error !in value &&
                                   forall j :: 0 <= j < k ==> fields[j] in value
  {
    if fields == [] then Ok([])
    else if fields[0] !in value then Err(fields[0])
    else
      match SelectedValues(fields[1..], value)
      case Err(f) =>
        assert exists k :: 0 <= k < |fields| && fields[k] == f && f !in value && forall j :: 0 <= j < k ==> fields[j] in value by {
          var k :| 0 <= k < |fields[1..]| && fields[1..][k] == f && f !in value && forall j :: 0 <= j < k ==> fields[1..][j] in value;
          assert forall j :: 0 <= j < k + 1 ==> fields[j] in value by {
            forall j | 0 <= j < k + 1 ensures fields[j] in value {
              if j > 0 {
                assert fields[j] == fields[1..][j - 1];
              }
            }
          }
        }
        Err(f)
      case Ok(vs) =>
        assert forall f :: f in fields ==> f in value by {
          forall f | f in fields ensures f in value {
            if f != fields[0] {
              assert f in fields[1..];
            }
          }
        }
        Ok([value[fields[0]]] + vs)
  }

  /** The distinct values of a sequence (`set(values)`). */
  function Distinct<V>(s: seq<V>): set<V> {
    set x | x in s
  }

  /** A sequence has as many distinct values as entries exactly when no
      value repeats. */
  lemma {:induction false} DistinctCount<V>(s: seq<V>)
    ensures |Distinct(s)| <= |s|
    ensures |Distinct(s)| == |s| <==> NoDuplicates(s)
  {
    if s != [] {
      var t := s[1..];
      DistinctCount(t);
      assert Distinct(s) == Distinct(t) + {s[0]};
      if s[0] in t {
        assert Distinct(s) == Distinct(t);
        var k :| 0 <= k < |t| && t[k] == s[0];
        assert s[0] == s[k + 1];
      } else {
        assert |Distinct(s)| == |Distinct(t)| + 1;
        if NoDuplicates(t) {
          forall i, j | 0 <= i < j < |s| ensures s[i] != s[j] {
            if i == 0 {
              assert s[j] == t[j - 1];
            } else {
              assert s[i] == t[i - 1] && s[j] == t[j - 1];
            }
          }
        }
      }
      if NoDuplicates(s) {
        forall i, j | 0 <= i < j < |t| ensures t[i] != t[j] {
          assert t[i] == s[i + 1] && t[j] == s[j + 1];
        }
      }
    }
  }

  /** `DoubleValidator(fields, message)`. */
  datatype DoubleValidator = DoubleValidator(fields: seq<string>, message: Option<string>)
  {
    /** The message the raised error carries. */
    function Message(): (m: string)
      ensures message.Some? ==> m == message.value
      ensures message.None? ==> m == DefaultMessage
    {
      if message.Some? then message.value else DefaultMessage
    }

    /** `__call__`: look the selected fields up, then raise when the set of
        their values is smaller than their list. */
    function Call<V(==)>(value: map<string, V>): (o: Outcome)
      ensures o.MissingField? <==> exists f :: f in fields && f !in value
      ensures o.MissingField? ==> o.field in fields && o.field !in value
      ensures o.Invalid? ==> o.message == Message()
    {
      match SelectedValues(fields, value)
      case Err(f) => MissingField(f)
      case Ok(vs) => if |vs| != |Distinct(vs)| then Invalid(Message()) else Passed
    }
  }

  /** Two selected fields hold the same value. */
  predicate SomeValueRepeats<V(==)>(fields: seq<string>, value: map<string, V>)
    requires forall f :: f in fields ==> f in value
  {
    exists i, j :: 0 <= i < j < |fields| && value[fields[i]] == value[fields[j]]
  }

  /** With every selected field present, the validator raises its message
      exactly when two of them hold equal values, and passes otherwise. */
  lemma CallRaisesIffRepeat<V>(v: DoubleValidator, value: map<string, V>)
    requires forall f :: f in v.fields ==> f in value
    ensures v.Call(value) == Invalid(v.Message()) <==> SomeValueRepeats(v.fields, value)
    ensures v.Call(value) == Passed <==> !SomeValueRepeats(v.fields, value)
  {
    var vs := SelectedValues(v.fields, value).value;
    DistinctCount(vs);
    if SomeValueRepeats(v.fields, value) {
      var i, j :| 0 <= i < j < |v.fields| && value[v.fields[i]] == value[v.fields[j]];
      assert vs[i] == vs[j];
    }
  }

  /** A selected field the value lacks fails the lookup, naming the first
      such field, before any comparison. */
  lemma MissingFieldFirst<V>(v: DoubleValidator, value: map<string, V>)
    requires exists f :: f in v.fields && f !in value
    ensures v.Call(value).MissingField?
    ensures exists k :: 0 <= k < |v.fields| && v.fields[k] == v.Call(value).field && v.fields[k] !in value &&
                        forall j :: 0 <= j < k ==> v.fields[j] in value
  {
  }

  /** With at most one selected field present the validator passes. */
  lemma FewFieldsPass<V>(v: DoubleValidator, value: map<string, V>)
    requires |v.fields| <= 1 && forall f :: f in v.fields ==> f in value
    ensures v.Call(value) == Passed
  {
    CallRaisesIffRepeat(v, value);
  }

  /** Only the selected fields matter: values that agree on them give the
      same outcome. */
  lemma {:induction false} OnlySelectedFieldsMatter<V>(fields: seq<string>, a: map<string, V>, b: map<string, V>)
    requires forall f :: f in fields ==> (f in a <==> f in b) && (f in a ==> a[f] == b[f])
    ensures SelectedValues(fields, a) == SelectedValues(fields, b)
  {
    if fields != [] && fields[0] in a {
      OnlySelectedFieldsMatter(fields[1..], a, b);
    }
  }

  lemma CallOnlySeesSelectedFields<V>(v: DoubleValidator, a: map<string, V>, b: map<string, V>)
    requires forall f :: f in v.fields ==> (f in a <==> f in b) && (f in a ==> a[f] == b[f])
    ensures v.Call(a) == v.Call(b)
  {
    OnlySelectedFieldsMatter(v.fields, a, b);
  }

  /** The order of the selected fields does not matter: listing the same
      fields in another order (with every field present) decides alike. */
  lemma OrderDoesNotMatter<V>(v: DoubleValidator, w: DoubleValidator, value: map<string, V>)
    requires multiset(v.fields) == multiset(w.fields) && v.message == w.message
    requires forall f :: f in v.fields ==> f in value
    ensures v.Call(value) == w.Call(value)
  {
    assert forall f :: f in v.fields <==> f in w.fields by {
      forall f ensures f in v.fields <==> f in w.fields {
        assert f in v.fields <==> f in multiset(v.fields);
        assert f in w.fields <==> f in multiset(w.fields);
      }
    }
    var xs, ys := SelectedValues(v.fields, value).value, SelectedValues(w.fields, value).value;
    assert |v.fields| == |multiset(v.fields)| == |multiset(w.fields)| == |w.fields|;
    assert Distinct(xs) == Distinct(ys) by {
      forall x | x in Distinct(xs) ensures x in Distinct(ys) {
        var i :| 0 <= i < |xs| && xs[i] == x;
        assert v.fields[i] in v.fields;
        var j :| 0 <= j < |w.fields| && w.fields[j] == v.fields[i];
        assert ys[j] == x;
      }
      forall y | y in Distinct(ys) ensures y in Distinct(xs) {
        var j :| 0 <= j < |ys| && ys[j] == y;
        assert w.fields[j] in w.fields;
        var i :| 0 <= i < |v.fields| && v.fields[i] == w.fields[j];
        assert xs[i] == y;
      }
    }
  }

  /** The message `validate_username_in_reserved_list` raises. */
  const ReservedMessage := "This username is reserved."

  /** `validate_username_in_reserved_list`, with the settings list
      `RESERVED_USERNAMES` as the parameter `reserved`: the error message, or
      `None` when the value passes. */
  function ValidateUsernameInReservedList(value: string, reserved: seq<string>): (error: Option<string>)
    ensures error.Some? <==> value in reserved
    ensures error.Some? ==> error.value == ReservedMessage
  {
    if value in reserved then Some(ReservedMessage) else None
  }

  /** An example, kept as documentation that membership is exact: "Admin"
      passes a list holding only "admin". */
  lemma CaseVariantPasses()
    ensures ValidateUsernameInReservedList("Admin", ["admin"]).None?
    ensures ValidateUsernameInReservedList("admin", ["admin"]).Some?
  {
    assert "Admin" != "admin" by {
      assert "Admin"[0] != "admin"[0];
    }
  }

  /** A longer reserved list rejects every name a shorter one rejects. */
  lemma ReservedListMonotone(value: string, reserved: seq<string>, more: seq<string>)
    requires forall x :: x in reserved ==> x in more
    ensures ValidateUsernameInReservedList(value, reserved).Some? ==> ValidateUsernameInReservedList(value, more).Some?
  {
  }
}
