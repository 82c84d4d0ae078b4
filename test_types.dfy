/**
 * Mapping of test-type names to the one-letter codes of the output schema
 * (`map_test_types_to_codes`).
 */
module TestTypes {
  import opened Wrappers
  import opened PyText
  import opened Json
  import opened Seqs

  /** One of the six one-letter codes A, B, C, K, P, S. */
  predicate IsCode(c: string) {
    |c| == 1 && c[0] in {'A', 'B', 'C', 'K', 'P', 'S'}
  }

  /** The name of the test type a code stands for; each name starts with its code. */
  function TypeName(code: char): (r: string)
    ensures |r| > 1 && r[0] == code
  {
    match code
    case 'A' => "Ability"
    case 'B' => "Behavioral"
    case 'C' => "Cognitive"
    case 'K' => "Knowledge"
    case 'P' => "Personality"
    case 'S' => "Situational"
    case _ => [code, code]
  }

  /**
   * The table of known test types: each code maps to itself and each type
   * name to its code.
   */
  function Lookup(t: string): (r: Option<string>)
    ensures r.Some? ==> IsCode(r.value) && (t == r.value || t == TypeName(r.value[0]))
    ensures IsCode(t) ==> r == Some(t)
  {
    if IsCode(t) then Some(t)
    else if |t| > 1 && IsCode(t[..1]) && t == TypeName(t[0]) then Some(t[..1])
    else None
  }

  /**
   * The code of one test type, given its `str()` form: looked up as is after
   * stripping, then title-cased.
   */
  function CodeOf(text: string): (r: Option<string>)
    ensures r.Some? ==> IsCode(r.value)
  {
    var tStr := Strip(text);
    var code := Lookup(tStr);
    if code.Some? then code else Lookup(Title(tStr))
  }

  /** The lookup result of every entry, in order. */
  function Lookups(texts: seq<string>): (r: seq<Option<string>>)
    ensures |r| == |texts|
    ensures forall i :: 0 <= i < |texts| ==> r[i] == CodeOf(texts[i])
  {
    seq(|texts|, i requires 0 <= i < |texts| => CodeOf(texts[i]))
  }

  /** The codes that were found, in order, duplicates included. */
  function Found(lookups: seq<Option<string>>): (r: seq<string>)
    ensures |r| <= |lookups|
    ensures forall c :: c in r ==> Some(c) in lookups
    ensures forall c :: Some(c) in lookups ==> c in r
  {
    if lookups == [] then []
    else
      var init := Found(lookups[..|lookups| - 1]);
      assert lookups == lookups[..|lookups| - 1] + [lookups[|lookups| - 1]];
      match lookups[|lookups| - 1]
      case Some(c) => init + [c]
      case None => init
  }

  /** The codes found in one more lookup. */
  lemma FoundStep(lookups: seq<Option<string>>, i: nat)
    requires i < |lookups|
    ensures lookups[i].Some? ==> Found(lookups[..i + 1]) == Found(lookups[..i]) + [lookups[i].value]
    ensures lookups[i].None? ==> Found(lookups[..i + 1]) == Found(lookups[..i])
  {
    assert lookups[..i + 1][..i] == lookups[..i];
  }

  /** A code is collected exactly when some text maps to it. */
  lemma CodesMembers(texts: seq<string>)
    ensures forall c :: c in FirstOccurrences(Found(Lookups(texts))) <==>
              exists i :: 0 <= i < |texts| && CodeOf(texts[i]) == Some(c)
  {
    var lookups := Lookups(texts);
    var found := Found(lookups);
    assert forall c :: c in FirstOccurrences(found) <==> c in Elems(found);
    forall c | Some(c) in lookups
      ensures exists i :: 0 <= i < |texts| && CodeOf(texts[i]) == Some(c)
    {
      var i :| 0 <= i < |lookups| && lookups[i] == Some(c);
    }
  }

  /** The codes found in two runs of lookups, one after the other. */
  lemma {:induction false} FoundConcat(a: seq<Option<string>>, b: seq<Option<string>>)
    ensures Found(a + b) == Found(a) + Found(b)
    decreases |b|
  {
    if b == [] {
      assert a + b == a;
    } else {
      var init := b[..|b| - 1];
      assert (a + b)[..|a + b| - 1] == a + init;
      FoundConcat(a, init);
    }
  }

  /**
   * `str(t) for t in types`: a list yields its items, a string its
   * characters; an int or a bool raises.
   */
  function Elements(types: Value): (r: Result<seq<string>>)
    ensures r.Err? <==> !(types.List? || types.Str?)
  {
    match types
    case List(items) => Ok(seq(|items|, i requires 0 <= i < |items| => ToStr(items[i])))
    case Str(s) => Ok(seq(|s|, i requires 0 <= i < |s| => [s[i]]))
    case Null => Err(TypeError)
    case Int(_) => Err(TypeError)
    case Bool(_) => Err(TypeError)
  }

  /**
   * The codes of the known test types, first occurrence first; a falsy value
   * gives no codes and a non-iterable one raises.
   */
  function TestTypeCodes(types: Value): (r: Result<seq<string>>)
    ensures !Truthy(types) ==> r == Ok([])
    ensures r.Err? <==> Truthy(types) && (types.Int? || types.Bool?)
    ensures r.Ok? ==> Distinct(r.value) && forall c :: c in r.value ==> IsCode(c)
    ensures r.Ok? && Truthy(types) ==>
              forall c :: c in r.value <==>
                exists i :: 0 <= i < |Elements(types).value| && CodeOf(Elements(types).value[i]) == Some(c)
  {
    if !Truthy(types) then Ok([])
    else
      match Elements(types)
      case Err(e) => Err(e)
      case Ok(texts) =>
        var found := Found(Lookups(texts));
        var codes := FirstOccurrences(found);
        assert forall c :: c in codes ==> c in Elems(found);
        CodesMembers(texts);
        Ok(codes)
  }

  /** `map_test_types_to_codes` */
  method MapTestTypesToCodes(types: Value) returns (r: Result<seq<string>>)
    ensures r == TestTypeCodes(types)
  {
    if !Truthy(types) {
      return Ok([]);
    }
    var elements := Elements(types);
    if elements.Err? {
      return Err(elements.error);
    }
    var codes := CollectCodes(elements.value);
    r := Ok(codes);
  }

  /** The loop of `map_test_types_to_codes`: each recognised code is appended unless already present. */
  method CollectCodes(texts: seq<string>) returns (codes: seq<string>)
    ensures codes == FirstOccurrences(Found(Lookups(texts)))
  {
    ghost var lookups := Lookups(texts);
    codes := [];
    ghost var found: seq<string> := [];
    var i := 0;
    while i < |texts|
      invariant i <= |texts|
      invariant found == Found(lookups[..i])
      invariant codes == FirstOccurrences(found)
    {
      var code := CodeOf(texts[i]);
      FoundStep(lookups, i);
      if code.Some? {
        FirstOccurrencesSnoc(found, code.value);
        found := found + [code.value];
        if code.value !in codes {
          codes := codes + [code.value];
        }
      }
      i := i + 1;
    }
    assert lookups[..i] == lookups;
  }

  /** Every type name is found under the code it starts with. */
  lemma LookupOfName(c: string)
    requires IsCode(c)
    ensures Lookup(TypeName(c[0])) == Some(c)
  {
    var t := TypeName(c[0]);
    assert t[..1] == c;
  }

  /** The twelve entries of the table. */
  lemma LookupTable()
    ensures Lookup("Ability") == Some("A") && Lookup("Behavioral") == Some("B")
    ensures Lookup("Cognitive") == Some("C") && Lookup("Knowledge") == Some("K")
    ensures Lookup("Personality") == Some("P") && Lookup("Situational") == Some("S")
    ensures forall c :: IsCode(c) ==> Lookup(c) == Some(c)
  {
    LookupOfName("A");
    LookupOfName("B");
    LookupOfName("C");
    LookupOfName("K");
    LookupOfName("P");
    LookupOfName("S");
  }

  /** An upper-case letter followed by lower-case letters: how every entry of the table is written. */
  predicate IsCapitalised(w: string) {
    |w| >= 1 && IsUpper(w[0]) && forall i :: 1 <= i < |w| ==> IsLower(w[i])
  }

  lemma {:induction false} TitleKeepsLowerTail(s: string)
    requires forall i :: 0 <= i < |s| ==> IsLower(s[i])
    ensures TitleFrom(s, true) == s
  {
    if s != [] {
      TitleKeepsLowerTail(s[1..]);
    }
  }

  /** Title-casing restores a capitalised word from its lower-case form. */
  lemma TitleOfLowerCapitalised(w: string)
    requires IsCapitalised(w)
    ensures Title(Lower(w)) == w
  {
    var l := Lower(w);
    TitleKeepsLowerTail(l[1..]);
    assert Title(l) == [UpperChar(l[0])] + TitleFrom(l[1..], true);
  }

  lemma NameCapitalised(c: string)
    requires IsCode(c)
    ensures IsCapitalised(TypeName(c[0]))
  {
  }

  /** Every entry of the table is capitalised. */
  lemma EntryCapitalised(k: string)
    requires Lookup(k).Some?
    ensures IsCapitalised(k)
  {
    var c := Lookup(k).value;
    if k != c {
      NameCapitalised(c);
    }
  }

  /** An entry of the table, as written there, maps to its code. */
  lemma CodeOfEntry(k: string)
    requires Lookup(k).Some?
    ensures CodeOf(k) == Lookup(k)
  {
    EntryCapitalised(k);
    StripNoSpace(k);
  }

  /** Every entry of the table is also recognised when written in lower case. */
  lemma CodeOfLowerCase(k: string)
    requires Lookup(k).Some?
    ensures CodeOf(Lower(k)) == Lookup(k)
  {
    EntryCapitalised(k);
    var l := Lower(k);
    StripNoSpace(l);
    assert !IsUpper(l[0]);
    assert Lookup(l).None?;
    TitleOfLowerCapitalised(k);
  }

  /** A non-empty list of strings gives the codes of the strings themselves. */
  lemma CodesOfStrings(items: seq<Value>, texts: seq<string>)
    requires |items| == |texts| > 0
    requires forall i :: 0 <= i < |items| ==> items[i] == Str(texts[i])
    ensures TestTypeCodes(List(items)) == Ok(FirstOccurrences(Found(Lookups(texts))))
  {
    var e := Elements(List(items)).value;
    assert e == texts;
  }

  /**
   * The codes of the first `j` items of a list come first, in the same order,
   * among the codes of the whole list: codes are kept in the order of their
   * first occurrence.
   */
  lemma TestTypeCodesPrefix(items: seq<Value>, j: nat)
    requires j <= |items|
    ensures TestTypeCodes(List(items[..j])).Ok? && TestTypeCodes(List(items)).Ok?
    ensures TestTypeCodes(List(items[..j])).value <= TestTypeCodes(List(items)).value
  {
    if j > 0 {
      var texts := Elements(List(items)).value;
      ElementsPrefix(items, j);
      assert TestTypeCodes(List(items)) == Ok(FirstOccurrences(Found(Lookups(texts))));
      assert TestTypeCodes(List(items[..j])) == Ok(FirstOccurrences(Found(Lookups(texts[..j]))));
      CodesPrefix(texts, j);
    }
  }

  lemma ElementsPrefix(items: seq<Value>, j: nat)
    requires j <= |items|
    ensures Elements(List(items[..j])).value == Elements(List(items)).value[..j]
  {
  }

  /** The codes collected from the first `j` texts are a prefix of those collected from all of them. */
  lemma CodesPrefix(texts: seq<string>, j: nat)
    requires j <= |texts|
    ensures FirstOccurrences(Found(Lookups(texts[..j]))) <= FirstOccurrences(Found(Lookups(texts)))
  {
    var lookups := Lookups(texts);
    assert Lookups(texts[..j]) == lookups[..j];
    assert lookups == lookups[..j] + lookups[j..];
    FoundConcat(lookups[..j], lookups[j..]);
    FirstOccurrencesPrefix(Found(lookups[..j]), Found(lookups[j..]));
  }

  /** Lookups that find a, b, a find those three codes. */
  lemma FoundOfTriple(lookups: seq<Option<string>>, a: string, b: string)
    requires |lookups| == 3
    requires lookups[0] == Some(a) && lookups[1] == Some(b) && lookups[2] == Some(a)
    ensures Found(lookups) == [a, b, a]
  {
    FoundStep(lookups, 0);
    assert lookups[..0] == [];
    FoundStep(lookups, 1);
    FoundStep(lookups, 2);
    assert lookups[..3] == lookups;
  }

  /** a, b, a de-duplicates to a, b. */
  lemma FirstOccurrencesOfTriple(a: string, b: string)
    requires a != b
    ensures FirstOccurrences([a, b, a]) == [a, b]
  {
    FirstOccurrencesSnoc([], a);
    assert [] + [a] == [a];
    FirstOccurrencesSnoc([a], b);
    FirstOccurrencesSnoc([a, b], a);
    assert [a, b] + [a] == [a, b, a];
  }

  /** The codes of a list of strings a, b, a. */
  lemma CodesOfTriple(first: string, second: string)
    ensures TestTypeCodes(List([Str(first), Str(second), Str(first)])) ==
              Ok(FirstOccurrences(Found(Lookups([first, second, first]))))
  {
    var texts := [first, second, first];
    var items := [Str(first), Str(second), Str(first)];
    assert texts[0] == first && texts[1] == second && texts[2] == first;
    assert items[0] == Str(first) && items[1] == Str(second) && items[2] == Str(first);
    CodesOfStrings(items, texts);
  }

  /** The codes found in a, b, a. */
  lemma FoundOfTexts(first: string, second: string, a: string, b: string)
    requires CodeOf(first) == Some(a) && CodeOf(second) == Some(b)
    ensures Found(Lookups([first, second, first])) == [a, b, a]
  {
    var lookups := Lookups([first, second, first]);
    assert lookups[0] == Some(a) && lookups[1] == Some(b) && lookups[2] == Some(a);
    FoundOfTriple(lookups, a, b);
  }

  /**
   * Two test types with different codes, the first repeated
   * (`["Ability", "Knowledge", "Ability"]`, say), give their two codes once
   * each, first occurrence first (`["A", "K"]`).
   */
  lemma RepeatedTypeCodes(first: string, second: string, a: string, b: string)
    requires CodeOf(first) == Some(a) && CodeOf(second) == Some(b) && a != b
    ensures TestTypeCodes(List([Str(first), Str(second), Str(first)])) == Ok([a, b])
  {
    CodesOfTriple(first, second);
    FoundOfTexts(first, second, a, b);
    FirstOccurrencesOfTriple(a, b);
  }

  /** `["Ability", "Knowledge", "Ability"]` gives `["A", "K"]`. */
  lemma AbilityKnowledgeExample()
    ensures TestTypeCodes(List([Str("Ability"), Str("Knowledge"), Str("Ability")])) == Ok(["A", "K"])
  {
    LookupTable();
    CodeOfEntry("Ability");
    CodeOfEntry("Knowledge");
    RepeatedTypeCodes("Ability", "Knowledge", "A", "K");
  }
}
