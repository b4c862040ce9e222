/**
 * The label encoder fitted on the protocol column at training time and used
 * again at scoring time. Fitting keeps the sorted distinct values seen (the
 * encoder's classes); the code of a value is its rank among them; a value not
 * seen at fit time has no code and is reported as an error.
 */
module Encoding {
  import opened Wrappers
  import opened Text

  predicate StrictlySorted(s: seq<string>) {
    forall i, j :: 0 <= i < j < |s| ==> StrLess(s[i], s[j])
  }

  /** A fitted encoder: its classes, sorted and without duplicates when produced by `Fit`. */
  datatype Registry = Registry(classes: seq<string>) {
    ghost predicate Valid() {
      StrictlySorted(classes)
    }
  }

  datatype EncodeError = UnseenLabel(value: string)

  lemma ConsSorted(x: string, t: seq<string>)
    requires StrictlySorted(t)
    requires forall y :: y in t ==> StrLess(x, y)
    ensures StrictlySorted([x] + t)
  {
    var s := [x] + t;
    forall i, j | 0 <= i < j < |s| ensures StrLess(s[i], s[j]) {
      if i == 0 {
        assert s[j] in t;
      } else {
        assert s[i] == t[i - 1] && s[j] == t[j - 1];
      }
    }
  }

  /** Adds one value to a sorted, duplicate-free sequence of classes. */
  function Insert(s: seq<string>, v: string): (r: seq<string>)
    requires StrictlySorted(s)
    ensures StrictlySorted(r)
    ensures forall x :: x in r <==> x in s || x == v
    decreases |s|
  {
    if |s| == 0 then [v]
    else if s[0] == v then s
    else if StrLess(v, s[0]) then
      assert forall y :: y in s ==> StrLess(v, y) by {
        forall y | y in s ensures StrLess(v, y) {
          if y != s[0] {
            var j :| 0 <= j < |s| && s[j] == y;
            StrLessTransitive(v, s[0], y);
          }
        }
      }
      ConsSorted(v, s);
      [v] + s
    else
      StrLessTotal(v, s[0]);
      var tail := Insert(s[1..], v);
      assert forall y :: y in tail ==> StrLess(s[0], y) by {
        forall y | y in tail ensures StrLess(s[0], y) {
          if y != v {
            var j :| 1 <= j < |s| && s[j] == y;
          }
        }
      }
      ConsSorted(s[0], tail);
      assert s == [s[0]] + s[1..];
      [s[0]] + tail
  }

  /** The distinct values of `values` in sorted order. */
  function Classes(values: seq<string>): (r: seq<string>)
    ensures StrictlySorted(r)
    ensures forall x :: x in r <==> x in values
  {
    if values == [] then [] else Insert(Classes(values[1..]), values[0])
  }

  /** `LabelEncoder().fit(values)`. */
  function Fit(values: seq<string>): (reg: Registry)
    ensures reg.Valid()
    ensures forall x :: x in reg.classes <==> x in values
  {
    Registry(Classes(values))
  }

  function IndexOf(s: seq<string>, v: string): (i: nat)
    requires v in s
    ensures i < |s| && s[i] == v
    ensures forall j :: 0 <= j < i ==> s[j] != v
  {
    if s[0] == v then 0 else 1 + IndexOf(s[1..], v)
  }

  /** `encoder.transform([v])[0]`: the rank of `v` among the classes, or the error that
      `transform` raises for a label not seen at fit time. */
  function Encode(reg: Registry, v: string): (r: Result<nat, EncodeError>)
    ensures r.Success? <==> v in reg.classes
    ensures r.Success? ==> r.value < |reg.classes| && reg.classes[r.value] == v
    ensures r.Failure? ==> r.error == UnseenLabel(v)
  {
    if v in reg.classes then Success(IndexOf(reg.classes, v)) else Failure(UnseenLabel(v))
  }

  /** `encoder.transform(values)`: one code per value, or the error for the first unseen one. */
  function Transform(reg: Registry, values: seq<string>): (r: Result<seq<nat>, EncodeError>)
    ensures r.Success? <==> forall i :: 0 <= i < |values| ==> values[i] in reg.classes
    ensures r.Success? ==> |r.value| == |values|
    ensures r.Success? ==> forall i :: 0 <= i < |values| ==> Encode(reg, values[i]) == Success(r.value[i])
    decreases |values|
  {
    if values == [] then Success([])
    else match Encode(reg, values[0])
      case Failure(e) => Failure(e)
      case Success(c) =>
        match Transform(reg, values[1..])
        case Failure(e) => Failure(e)
        case Success(cs) => Success([c] + cs)
  }

  // ---- Properties of a fitted encoder ----

  lemma {:induction false} DistinctCardinality(s: seq<string>)
    requires StrictlySorted(s)
    ensures |set x | x in s| == |s|
  {
    if |s| > 0 {
      var t := s[1..];
      assert StrictlySorted(t);
      DistinctCardinality(t);
      assert s[0] !in t by {
        if s[0] in t {
          var j :| 0 <= j < |t| && t[j] == s[0];
          assert StrLess(s[0], s[j + 1]);
          StrLessIrreflexive(s[0]);
        }
      }
      assert (set x | x in s) == (set x | x in t) + {s[0]};
    }
  }

  /** `fit_transform` on a column never fails: every training value gets a code in
      `[0, number of distinct values)`, which is the value's rank among the classes. */
  lemma FitTransformTotal(values: seq<string>)
    ensures Transform(Fit(values), values).Success?
    ensures |Fit(values).classes| == |set v | v in values|
    ensures forall i :: 0 <= i < |values| ==>
      Transform(Fit(values), values).value[i] < |set v | v in values|
  {
    var reg := Fit(values);
    DistinctCardinality(reg.classes);
    assert (set x | x in reg.classes) == (set v | v in values);
    assert forall i :: 0 <= i < |values| ==> values[i] in reg.classes;
  }

  /** Two values get the same code exactly when they are the same value. */
  lemma EncodeInjective(reg: Registry, a: string, b: string)
    requires Encode(reg, a).Success? && Encode(reg, b).Success?
    ensures Encode(reg, a) == Encode(reg, b) <==> a == b
  {
  }

  /** Codes follow the sorted order of the values. */
  lemma EncodeMonotone(reg: Registry, a: string, b: string)
    requires reg.Valid()
    requires a in reg.classes && b in reg.classes
    requires StrLess(a, b)
    ensures Encode(reg, a).value < Encode(reg, b).value
  {
    var i, j := Encode(reg, a).value, Encode(reg, b).value;
    if j == i {
      StrLessIrreflexive(a);
    } else if j < i {
      assert StrLess(b, a);
      StrLessAsymmetric(a, b);
    }
  }

  /** In a sorted sequence the values below `s[i]` are exactly those before index `i`. */
  lemma SortedPrefixBelow(s: seq<string>, i: nat, u: string)
    requires StrictlySorted(s) && i < |s|
    ensures (u in s && StrLess(u, s[i])) <==> u in s[..i]
  {
    if u in s[..i] {
      var k :| 0 <= k < i && s[..i][k] == u;
      assert StrLess(s[k], s[i]);
    }
    if u in s && StrLess(u, s[i]) {
      var k :| 0 <= k < |s| && s[k] == u;
      if k == i {
        StrLessIrreflexive(u);
      } else if k > i {
        StrLessAsymmetric(s[i], s[k]);
      }
      assert s[..i][k] == u;
    }
  }

  /** The distinct values of `values` that sort below `v`. */
  ghost function Below(values: seq<string>, v: string): set<string> {
    set u | u in values && StrLess(u, v)
  }

  lemma RankInSorted(s: seq<string>, values: seq<string>, i: nat)
    requires StrictlySorted(s) && i < |s|
    requires forall x :: x in s <==> x in values
    ensures |Below(values, s[i])| == i
  {
    var prefix := s[..i];
    var below := Below(values, s[i]);
    forall u ensures u in below <==> u in prefix {
      SortedPrefixBelow(s, i, u);
    }
    assert below == set u | u in prefix;
    assert StrictlySorted(prefix);
    DistinctCardinality(prefix);
    assert |below| == |prefix| == i;
  }

  /** The code of a seen value is its rank: the number of distinct seen values below it. */
  lemma EncodeIsRank(values: seq<string>, v: string)
    requires v in values
    ensures Encode(Fit(values), v).Success?
    ensures Encode(Fit(values), v).value == |Below(values, v)|
  {
    var reg := Fit(values);
    RankInSorted(reg.classes, values, Encode(reg, v).value);
  }

  lemma {:induction false} SortedUnique(s: seq<string>, t: seq<string>)
    requires StrictlySorted(s) && StrictlySorted(t)
    requires forall x :: x in s <==> x in t
    ensures s == t
    decreases |s|
  {
    assert |s| > 0 <==> |t| > 0 by {
      if |s| > 0 { assert s[0] in t; }
      if |t| > 0 { assert t[0] in s; }
    }
    if |s| > 0 {
      assert s[0] == t[0] by {
        if s[0] != t[0] {
          assert s[0] in t && t[0] in s;
          var j :| 0 <= j < |t| && t[j] == s[0];
          var k :| 0 <= k < |s| && s[k] == t[0];
          assert j > 0 && k > 0;
          assert StrLess(t[0], s[0]) && StrLess(s[0], t[0]);
          StrLessAsymmetric(t[0], s[0]);
        }
      }
      forall x ensures x in s[1..] <==> x in t[1..] {
        if x in s[1..] {
          var k :| 1 <= k < |s| && s[k] == x;
          assert StrLess(s[0], x);
          StrLessIrreflexive(x);
          assert x != t[0] && x in t;
        }
        if x in t[1..] {
          var k :| 1 <= k < |t| && t[k] == x;
          assert StrLess(t[0], x);
          StrLessIrreflexive(x);
          assert x != s[0] && x in s;
        }
      }
      SortedUnique(s[1..], t[1..]);
      assert s == [s[0]] + s[1..] && t == [t[0]] + t[1..];
    }
  }

  /** Refitting on any column with the same distinct values (in any order, with any
      repetitions) yields the same encoder, so retraining reproduces the codes. */
  lemma FitDeterministic(values1: seq<string>, values2: seq<string>)
    requires forall x :: x in values1 <==> x in values2
    ensures Fit(values1) == Fit(values2)
  {
    SortedUnique(Fit(values1).classes, Fit(values2).classes);
  }
}
