/** The three records a run rewrites in place: the test case, its data
    constructors and its assertions.  Attributes that no part of the
    executor assigns are `const`; the ones `setattr` rewrites are `var`. */
module Entities {
  import opened Wrappers

  /** The case fields that carry EL tokens (Executor.fields, and the field
      list of replace_testcase). */
  datatype CaseField = Body | Url | RequestHeaders

  function FieldName(f: CaseField): string
  {
    match f
    case Body => "body"
    case Url => "url"
    case RequestHeaders => "request_headers"
  }

  class TestCase {
    const id: int
    const name: string
    const requestMethod: string
    const bodyType: int
    var url: Option<string>
    var body: Option<string>
    var requestHeaders: Option<string>

    constructor (id: int, name: string, requestMethod: string, bodyType: int,
                 url: Option<string>, body: Option<string>, requestHeaders: Option<string>)
      ensures this.id == id && this.name == name && this.requestMethod == requestMethod
      ensures this.bodyType == bodyType
      ensures this.url == url && this.body == body && this.requestHeaders == requestHeaders
    {
      this.id := id;
      this.name := name;
      this.requestMethod := requestMethod;
      this.bodyType := bodyType;
      this.url := url;
      this.body := body;
      this.requestHeaders := requestHeaders;
    }

    /** `getattr(case, f)`. */
    function Get(f: CaseField): Option<string>
      reads this
    {
      match f
      case Body => body
      case Url => url
      case RequestHeaders => requestHeaders
    }

    /** `setattr(case, f, v)`: that field and no other. */
    method Set(f: CaseField, v: Option<string>)
      modifies this
      ensures Get(f) == v
      ensures forall g :: g != f ==> Get(g) == old(Get(g))
    {
      match f
      case Body => body := v;
      case Url => url := v;
      case RequestHeaders => requestHeaders := v;
    }

    /** The fields replace_testcase visits, in its order. */
    function Rewritable(): seq<Option<string>>
      reads this
    {
      [requestHeaders, body, url]
    }
  }

  class Constructor {
    const id: int
    const name: string
    const enable: bool
    const constructorType: int
    /** The name under which the step stores its output. */
    const value: string
    var constructorJson: Option<string>

    constructor (id: int, name: string, enable: bool, constructorType: int, value: string,
                 constructorJson: Option<string>)
      ensures this.id == id && this.name == name && this.enable == enable
      ensures this.constructorType == constructorType && this.value == value
      ensures this.constructorJson == constructorJson
    {
      this.id := id;
      this.name := name;
      this.enable := enable;
      this.constructorType := constructorType;
      this.value := value;
      this.constructorJson := constructorJson;
    }
  }

  class Assertion {
    const id: int
    const actually: Option<string>
    const assertType: string
    var expected: Option<string>

    constructor (id: int, expected: Option<string>, actually: Option<string>, assertType: string)
      ensures this.id == id && this.expected == expected
      ensures this.actually == actually && this.assertType == assertType
    {
      this.id := id;
      this.expected := expected;
      this.actually := actually;
      this.assertType := assertType;
    }
  }

  /** The objects of a list are pairwise distinct (rows fetched from the
      store are separate objects). */
  predicate Distinct<T(==)>(xs: seq<T>)
  {
    forall i, j :: 0 <= i < j < |xs| ==> xs[i] != xs[j]
  }

  /** The constructor_json of each constructor, in order. */
  function JsonsOf(cs: seq<Constructor>): (r: seq<Option<string>>)
    reads set c | c in cs
    ensures |r| == |cs|
  {
    if cs == [] then [] else [cs[0].constructorJson] + JsonsOf(cs[1..])
  }

  lemma {:induction false} JsonsOfFields(cs: seq<Constructor>)
    ensures forall i :: 0 <= i < |cs| ==> JsonsOf(cs)[i] == cs[i].constructorJson
  {
    if cs != [] {
      JsonsOfFields(cs[1..]);
      forall i | 0 < i < |cs| ensures JsonsOf(cs)[i] == cs[i].constructorJson {
        assert cs[1..][i - 1] == cs[i];
      }
    }
  }

  /** The expected side of each assertion, in order. */
  function ExpectedOf(asserts: seq<Assertion>): (r: seq<Option<string>>)
    reads set a | a in asserts
    ensures |r| == |asserts|
  {
    if asserts == [] then [] else [asserts[0].expected] + ExpectedOf(asserts[1..])
  }

  lemma {:induction false} ExpectedOfFields(asserts: seq<Assertion>)
    ensures forall i :: 0 <= i < |asserts| ==> ExpectedOf(asserts)[i] == asserts[i].expected
  {
    if asserts != [] {
      ExpectedOfFields(asserts[1..]);
      forall i | 0 < i < |asserts| ensures ExpectedOf(asserts)[i] == asserts[i].expected {
        assert asserts[1..][i - 1] == asserts[i];
      }
    }
  }
}
