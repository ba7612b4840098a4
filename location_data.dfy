/** `LocationData`: a state and a county, rendered as the query string of a broadband request. */
module CountyLocation {
  import opened Wrappers

  const StateKey := "state="
  const CountyKey := "&county="

  datatype LocationData = LocationData(state: string, county: string)
  {
    /** `toOurServerParams()`: `state=<state>&county=<county>`, with no encoding of either value. */
    function ToOurServerParams(): (p: string)
      ensures |p| == |state| + |county| + 14
      ensures p[..6] == StateKey
      ensures p[6..6 + |state|] == state
      ensures p[6 + |state|..14 + |state|] == CountyKey
      ensures p[14 + |state|..] == county
    {
      StateKey + state + CountyKey + county
    }
  }

  /** The first `&` at or after `from`, or `|s|`. */
  function NextAmpersand(s: string, from: nat): (k: nat)
    requires from <= |s|
    ensures from <= k <= |s|
    ensures k < |s| ==> s[k] == '&'
    ensures forall j :: from <= j < k ==> s[j] != '&'
    decreases |s| - from
  {
    if from == |s| || s[from] == '&' then from else NextAmpersand(s, from + 1)
  }

  /** Reads a query string back: the state runs from `state=` to the first `&`, which must open `&county=`. */
  function FromServerParams(p: string): Option<LocationData> {
    if |p| < 6 || p[..6] != StateKey then None
    else
      var k := NextAmpersand(p, 6);
      if k + 8 <= |p| && p[k..k + 8] == CountyKey then Some(LocationData(p[6..k], p[k + 8..]))
      else None
  }

  /** A state without `&` survives the round trip through the query string. */
  lemma ServerParamsRoundTrip(loc: LocationData)
    requires forall i :: 0 <= i < |loc.state| ==> loc.state[i] != '&'
    ensures FromServerParams(loc.ToOurServerParams()) == Some(loc)
  {
    var p := loc.ToOurServerParams();
    var k := |loc.state| + 6;
    forall j | 6 <= j < k
      ensures p[j] != '&'
    {
      assert p[j] == p[6..6 + |loc.state|][j - 6];
    }
    assert p[k] == CountyKey[0];
    assert NextAmpersand(p, 6) == k;
  }

  /** A state containing `&county=` makes two locations render the same query string. */
  lemma AmbiguousWithoutEncoding(a: string, b: string, c: string)
    ensures LocationData(a + CountyKey + b, c).ToOurServerParams() == LocationData(a, b + CountyKey + c).ToOurServerParams()
  {
    assert StateKey + (a + CountyKey + b) + CountyKey + c == StateKey + a + CountyKey + (b + CountyKey + c);
  }

  /** The request the broadband handler builds for Onondaga County, New York. */
  lemma OnondagaExample(loc: LocationData)
    requires loc == LocationData("New+York", "Onondaga+County")
    ensures loc.ToOurServerParams() == "state=New+York&county=Onondaga+County"
    ensures loc.state == "New+York" && loc.county == "Onondaga+County"
  {
  }
}
