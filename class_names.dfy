/**
 * `cn`, the class-name joiner (src/lib/utils.ts): each argument is a string,
 * a falsy value or a record from class name to condition; the truthy strings
 * and the keys whose condition holds are joined with single spaces.
 */
module ClassNames {
  import opened JsString

  /** One argument of `cn`. A record is given by its entries in `Object.entries` order. */
  datatype ClassValue =
    | Str(s: string)
    | Null
    | Undefined
    | False
    | Record(entries: seq<(string, bool)>)

  /** JavaScript's `!value`: null, undefined, false and the empty string; a record is an object and so truthy. */
  predicate IsFalsy(v: ClassValue) {
    v.Null? || v.Undefined? || v.False? || (v.Str? && v.s == "")
  }

  /** The keys of a record whose condition holds, in entry order (the `filter` then `map`). */
  function TrueKeys(entries: seq<(string, bool)>): (keys: seq<string>)
    ensures |keys| <= |entries|
    ensures forall k :: k in keys <==> exists i :: 0 <= i < |entries| && entries[i] == (k, true)
  {
    if entries == [] then []
    else
      var rest := TrueKeys(entries[1..]);
      assert forall i :: 0 < i < |entries| ==> entries[i] == entries[1..][i - 1];
      if entries[0].1 then [entries[0].0] + rest else rest
  }

  lemma {:induction false} TrueKeysAppend(a: seq<(string, bool)>, b: seq<(string, bool)>)
    ensures TrueKeys(a + b) == TrueKeys(a) + TrueKeys(b)
  {
    if a == [] {
      assert a + b == b;
    } else {
      assert (a + b)[1..] == a[1..] + b;
      TrueKeysAppend(a[1..], b);
    }
  }

  /** What one argument contributes to the list of parts (the `flatMap` callback). */
  function PartsOf(v: ClassValue): seq<string> {
    if IsFalsy(v) then []
    else match v
      case Str(s) => [s]
      case Record(entries) => TrueKeys(entries)
      case _ => []
  }

  /** The parts of all arguments, in argument order. */
  function Parts(args: seq<ClassValue>): seq<string> {
    if args == [] then [] else PartsOf(args[0]) + Parts(args[1..])
  }

  /** `cn(...args)`. */
  function Cn(args: seq<ClassValue>): (r: string) {
    JoinWith(Parts(args), ' ')
  }

  /** Parts keep argument order: the parts of a concatenation are the concatenation of the parts. */
  lemma {:induction false} PartsAppend(a: seq<ClassValue>, b: seq<ClassValue>)
    ensures Parts(a + b) == Parts(a) + Parts(b)
  {
    if a == [] {
      assert a + b == b;
    } else {
      assert (a + b)[1..] == a[1..] + b;
      PartsAppend(a[1..], b);
    }
  }

  /** Without arguments, or with falsy ones only, `cn` gives the empty string. */
  lemma {:induction false} AllFalsyEmpty(args: seq<ClassValue>)
    requires forall i :: 0 <= i < |args| ==> IsFalsy(args[i])
    ensures Parts(args) == [] && Cn(args) == ""
  {
    if args != [] {
      AllFalsyEmpty(args[1..]);
    }
  }

  /** A non-empty string argument is one part, exactly as given. */
  lemma StringIsVerbatim(s: string)
    requires s != ""
    ensures Parts([Str(s)]) == [s] && Cn([Str(s)]) == s
  {
    assert [Str(s)][1..] == [];
  }

  /** A record contributes exactly the keys whose condition is true, in entry order. */
  lemma RecordContributesTrueKeys(entries: seq<(string, bool)>)
    ensures Parts([Record(entries)]) == TrueKeys(entries)
  {
    assert [Record(entries)][1..] == [];
  }

  /** Adding or removing a falsy argument anywhere leaves the result unchanged. */
  lemma FalsyArgumentIgnored(a: seq<ClassValue>, v: ClassValue, b: seq<ClassValue>)
    requires IsFalsy(v)
    ensures Cn(a + [v] + b) == Cn(a + b)
  {
    PartsAppend(a + [v], b);
    PartsAppend(a, [v]);
    PartsAppend(a, b);
    assert [v][1..] == [];
    assert Parts([v]) == [];
    assert Parts(a + [v]) == Parts(a);
  }

  /**
   * Parts are separated by exactly one space and there is no separator at
   * either end: for parts free of spaces, splitting the result on spaces
   * gives the parts back.
   */
  lemma JoinedBySingleSpaces(args: seq<ClassValue>)
    requires Parts(args) != []
    requires forall k :: 0 <= k < |Parts(args)| ==> ' ' !in Parts(args)[k]
    ensures Split(Cn(args), ' ') == Parts(args)
  {
    SplitJoin(Parts(args), ' ');
  }

  /** Appending an argument that contributes parts adds one space and those parts. */
  lemma {:induction false} CnAppend(a: seq<ClassValue>, v: ClassValue)
    requires Parts(a) != [] && PartsOf(v) != []
    ensures Cn(a + [v]) == Cn(a) + " " + JoinWith(PartsOf(v), ' ')
  {
    PartsAppend(a, [v]);
    assert [v][1..] == [];
    assert Parts([v]) == PartsOf(v);
    JoinAppend(Parts(a), PartsOf(v));
  }

  lemma {:induction false} JoinAppend(p: seq<string>, q: seq<string>)
    requires p != [] && q != []
    ensures JoinWith(p + q, ' ') == JoinWith(p, ' ') + " " + JoinWith(q, ' ')
  {
    if |p| == 1 {
      assert (p + q)[1..] == q;
    } else {
      assert (p + q)[1..] == p[1..] + q;
      JoinAppend(p[1..], q);
    }
  }

  /** There is no de-duplication: `cn("a", "a")` is `"a a"`. */
  lemma NoDeduplication()
    ensures Cn([Str("a"), Str("a")]) == "a a"
  {
    assert [Str("a"), Str("a")][1..] == [Str("a")];
    assert [Str("a")][1..] == [];
  }
}
