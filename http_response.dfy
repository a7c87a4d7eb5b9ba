/**
 * `http_response` and the case-insensitive comparison used to look up its
 * header fields. Field names are case-insensitive (section 3.2 of RFC 7230);
 * the comparison folds ASCII letters only.
 */
module HttpResponses {
  import opened Wrappers

  predicate IsAsciiUpper(c: char) {
    'A' <= c <= 'Z'
  }

  /** ASCII `tolower`: upper-case letters map to lower case, every other character to itself. */
  function ToLowerAscii(c: char): char {
    if IsAsciiUpper(c) then (c as int + 32) as char else c
  }

  /** A string with every character passed through `ToLowerAscii`. */
  function Lowered(s: string): string {
    seq(|s|, i requires 0 <= i < |s| => ToLowerAscii(s[i]))
  }

  /**
   * `strings_equal_case_insensitive`: `ranges_equal` with a predicate that
   * compares lower-cased characters, walking both strings in step.
   */
  function StringsEqualCaseInsensitive(a: string, b: string): (r: bool)
    ensures r <==> |a| == |b| && forall i | 0 <= i < |a| :: ToLowerAscii(a[i]) == ToLowerAscii(b[i])
  {
    if |a| != |b| then false
    else if a == [] then true
    else ToLowerAscii(a[0]) == ToLowerAscii(b[0]) && StringsEqualCaseInsensitive(a[1..], b[1..])
  }

  /** The comparison agrees with comparing the lower-cased strings for equality. */
  lemma CaseInsensitiveIffLoweredEqual(a: string, b: string)
    ensures StringsEqualCaseInsensitive(a, b) <==> Lowered(a) == Lowered(b)
  {
    if Lowered(a) == Lowered(b) {
      assert |a| == |Lowered(a)| == |Lowered(b)| == |b|;
      forall i | 0 <= i < |a| ensures ToLowerAscii(a[i]) == ToLowerAscii(b[i]) {
        assert Lowered(a)[i] == Lowered(b)[i];
      }
    }
  }

  /** Case-insensitive equality is an equivalence relation, so header lookup is well defined. */
  lemma CaseInsensitiveIsEquivalence(a: string, b: string, c: string)
    ensures StringsEqualCaseInsensitive(a, a)
    ensures StringsEqualCaseInsensitive(a, b) ==> StringsEqualCaseInsensitive(b, a)
    ensures StringsEqualCaseInsensitive(a, b) && StringsEqualCaseInsensitive(b, c) ==> StringsEqualCaseInsensitive(a, c)
  {
    CaseInsensitiveIffLoweredEqual(a, a);
    CaseInsensitiveIffLoweredEqual(a, b);
    CaseInsensitiveIffLoweredEqual(b, a);
    CaseInsensitiveIffLoweredEqual(b, c);
    CaseInsensitiveIffLoweredEqual(a, c);
  }

  /** A string without upper-case ASCII letters is case-insensitively equal only to its own case variants. */
  lemma LowerCaseNameMatchesLoweredOnly(name: string, candidate: string)
    requires forall i | 0 <= i < |name| :: !IsAsciiUpper(name[i])
    ensures StringsEqualCaseInsensitive(candidate, name) <==> Lowered(candidate) == name
  {
    CaseInsensitiveIffLoweredEqual(candidate, name);
    assert Lowered(name) == name;
  }

  /** A header field as stored in the response: name and value. */
  type HeaderField = (string, string)

  /** `http_response`: an optional status code, the body and the header fields in order. */
  datatype HttpResponse = HttpResponse(status: Option<int>, data: string, headers: seq<HeaderField>)
  {
    /** `operator bool`: a response counts as successful exactly when it has a status. */
    predicate Truthy(): (r: bool)
      ensures r <==> status != None
    {
      status.Some?
    }

    /** `http_response::failed`: the error message is dropped and a default response returned. */
    static function Failed(errorMessage: string): (r: HttpResponse)
      ensures !r.Truthy()
      ensures r.status == None && r.data == [] && r.headers == []
    {
      EmptyResponse
    }

    /**
     * `get_last_header_value_or_empty`: scans the fields front to back and
     * returns the value of the FIRST whose name matches, or "" if none does.
     * Being a datatype member, it cannot change the response.
     */
    method GetLastHeaderValueOrEmpty(headerName: string) returns (value: string)
      ensures (forall i | 0 <= i < |headers| :: !StringsEqualCaseInsensitive(headers[i].0, headerName)) ==> value == []
      ensures forall i | 0 <= i < |headers| && StringsEqualCaseInsensitive(headers[i].0, headerName)
                && (forall j | 0 <= j < i :: !StringsEqualCaseInsensitive(headers[j].0, headerName)) ::
                value == headers[i].1
    {
      var i := 0;
      while i < |headers|
        invariant 0 <= i <= |headers|
        invariant forall j | 0 <= j < i :: !StringsEqualCaseInsensitive(headers[j].0, headerName)
      {
        if StringsEqualCaseInsensitive(headers[i].0, headerName) {
          return headers[i].1;
        }
        i := i + 1;
      }
      return [];
    }
  }

  /** A default-constructed `http_response`: no status, no body, no headers. */
  const EmptyResponse: HttpResponse := HttpResponse(None, [], [])
}
