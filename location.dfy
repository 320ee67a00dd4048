/**
 * getQueryVariable: reading one parameter out of the page URL's query
 * (`window.location.search`, passed in here as `search`).
 */
module Location {
  import opened Wrappers
  import opened Strings
  import opened Percent

  /** What getQueryVariable gives back: `null`, a decoded value, or a URIError it throws. */
  datatype Lookup = Null | Value(value: string) | ThrowsURIError

  /** `location.search.substring(1)`: the query without its leading `?`. */
  function QueryOf(search: string): string {
    if search == [] then [] else search[1..]
  }

  /** `pair[1]` of `vars[i].split('=')`: absent when the pair holds no `=`. */
  function SecondComponent(pair: seq<string>): Option<string> {
    if |pair| >= 2 then Some(pair[1]) else None
  }

  /** decodeURIComponent converts its argument to a string first: `undefined` reads "undefined". */
  function ToJsString(v: Option<string>): string {
    match v
    case Some(s) => s
    case None => "undefined"
  }

  /** The decoded name of one `name=value` pair; None where decodeURIComponent throws. */
  function NameOf(v: string): (name: Option<string>)
    ensures '%' !in Split(v, '=')[0] ==> name == Some(Split(v, '=')[0])
  {
    var raw := Split(v, '=')[0];
    if '%' !in raw then DecodePlain(raw); Decode(raw) else Decode(raw)
  }

  /** What getQueryVariable returns once the pair `v` has matched. */
  function ValueOf(v: string): (r: Lookup)
    ensures r != Null
  {
    match Decode(ToJsString(SecondComponent(Split(v, '='))))
    case None => ThrowsURIError
    case Some(value) => Value(value)
  }

  /** The loop of getQueryVariable over the `&`-separated pairs, as a recursion. */
  function LookupPairs(vars: seq<string>, parameter: string): (r: Lookup)
    ensures r.Value? ==> exists i :: 0 <= i < |vars| && NameOf(vars[i]) == Some(parameter) && ValueOf(vars[i]) == r
    ensures r.ThrowsURIError? ==> exists i :: 0 <= i < |vars| && (NameOf(vars[i]).None? || ValueOf(vars[i]).ThrowsURIError?)
    decreases |vars|
  {
    if vars == [] then Null
    else match NameOf(vars[0])
      case None => ThrowsURIError
      case Some(name) =>
        if name == parameter then ValueOf(vars[0])
        else
          var rest := LookupPairs(vars[1..], parameter);
          assert forall i :: 0 <= i < |vars| - 1 ==> vars[1..][i] == vars[i + 1];
          rest
  }

  /** getQueryVariable(parameter) for a page whose `location.search` is `search`. */
  function QueryVariable(search: string, parameter: string): (r: Lookup)
    ensures |search| <= 1 && parameter != "" ==> r == Null
  {
    LookupPairs(Split(QueryOf(search), '&'), parameter)
  }

  /** getQueryVariable, as the source writes it: a loop with an early return. */
  method GetQueryVariable(search: string, parameter: string) returns (r: Lookup)
    ensures r == QueryVariable(search, parameter)
  {
    var query := if |search| > 0 then search[1..] else search;
    var vars := Split(query, '&');
    for i := 0 to |vars|
      invariant LookupPairs(vars[i..], parameter) == LookupPairs(vars, parameter)
    {
      LookupAt(vars, i, parameter);
      var pair := Split(vars[i], '=');
      var name := Decode(pair[0]);
      if name.None? {
        return ThrowsURIError;
      }
      if name.value == parameter {
        var value := Decode(ToJsString(SecondComponent(pair)));
        if value.None? {
          return ThrowsURIError;
        }
        return Value(value.value);
      }
    }
    return Null;
  }

  /** One turn of the loop: the pair at `i` either decides the result or is passed over. */
  lemma LookupAt(vars: seq<string>, i: nat, parameter: string)
    requires i < |vars|
    ensures LookupPairs(vars[i..], parameter) ==
      match NameOf(vars[i])
      case None => ThrowsURIError
      case Some(name) => if name == parameter then ValueOf(vars[i]) else LookupPairs(vars[i + 1..], parameter)
  {
    assert vars[i..][0] == vars[i] && vars[i..][1..] == vars[i + 1..];
  }

  /** Every pair before index `i` has a name that decodes and differs from `parameter`. */
  predicate PassedOver(vars: seq<string>, parameter: string, i: nat)
    requires i <= |vars|
  {
    forall j :: 0 <= j < i ==> NameOf(vars[j]).Some? && NameOf(vars[j]).value != parameter
  }

  /** The first pair whose decoded name is `parameter` decides the result. */
  lemma {:induction false} FirstMatchDecides(vars: seq<string>, parameter: string, i: nat)
    requires i < |vars| && PassedOver(vars, parameter, i)
    requires NameOf(vars[i]) == Some(parameter)
    ensures LookupPairs(vars, parameter) == ValueOf(vars[i])
    decreases i
  {
    if i > 0 {
      assert NameOf(vars[0]).Some?;
      assert PassedOver(vars[1..], parameter, i - 1) by {
        forall j | 0 <= j < i - 1 ensures NameOf(vars[1..][j]).Some? && NameOf(vars[1..][j]).value != parameter {
          assert vars[1..][j] == vars[j + 1];
        }
      }
      FirstMatchDecides(vars[1..], parameter, i - 1);
    }
  }

  /** A name that fails to decode before any match makes getQueryVariable throw. */
  lemma {:induction false} BadNameThrows(vars: seq<string>, parameter: string, i: nat)
    requires i < |vars| && PassedOver(vars, parameter, i)
    requires NameOf(vars[i]).None?
    ensures LookupPairs(vars, parameter) == ThrowsURIError
    decreases i
  {
    if i > 0 {
      assert NameOf(vars[0]).Some?;
      assert PassedOver(vars[1..], parameter, i - 1) by {
        forall j | 0 <= j < i - 1 ensures NameOf(vars[1..][j]).Some? && NameOf(vars[1..][j]).value != parameter {
          assert vars[1..][j] == vars[j + 1];
        }
      }
      BadNameThrows(vars[1..], parameter, i - 1);
    }
  }

  /** getQueryVariable returns `null` exactly when every name decodes and none is `parameter`. */
  lemma {:induction false} NullIffNoMatch(vars: seq<string>, parameter: string)
    ensures LookupPairs(vars, parameter) == Null <==> PassedOver(vars, parameter, |vars|)
    decreases |vars|
  {
    if vars != [] {
      NullIffNoMatch(vars[1..], parameter);
      if NameOf(vars[0]).Some? && NameOf(vars[0]).value != parameter {
        if PassedOver(vars[1..], parameter, |vars| - 1) {
          forall j | 0 <= j < |vars| ensures NameOf(vars[j]).Some? && NameOf(vars[j]).value != parameter {
            if j > 0 {
              assert vars[j] == vars[1..][j - 1];
            }
          }
        } else {
          var j :| 0 <= j < |vars| - 1 && !(NameOf(vars[1..][j]).Some? && NameOf(vars[1..][j]).value != parameter);
          assert vars[1..][j] == vars[j + 1];
        }
      } else {
        assert !(NameOf(vars[0]).Some? && NameOf(vars[0]).value != parameter);
        assert ValueOf(vars[0]) != Null;
      }
    }
  }

  /** Pairs after a decisive pair are never looked at: later duplicates are ignored. */
  lemma {:induction false} LaterPairsIgnored(vars: seq<string>, more: seq<string>, parameter: string)
    requires LookupPairs(vars, parameter) != Null
    ensures LookupPairs(vars + more, parameter) == LookupPairs(vars, parameter)
    decreases |vars|
  {
    assert vars != [];
    assert (vars + more)[0] == vars[0] && (vars + more)[1..] == vars[1..] + more;
    if NameOf(vars[0]).Some? && NameOf(vars[0]).value != parameter {
      LaterPairsIgnored(vars[1..], more, parameter);
    }
  }

  /** The pairs `name=value` with both sides encoded by encodeURIComponent. */
  function EncodePairs(ps: seq<(string, string)>): (vars: seq<string>)
    ensures |vars| == |ps|
    ensures forall i :: 0 <= i < |vars| ==> '&' !in vars[i]
  {
    if ps == [] then []
    else
      var v := Encode(ps[0].0) + "=" + Encode(ps[0].1);
      assert forall i :: 0 <= i < |v| ==> v[i] != '&';
      [v] + EncodePairs(ps[1..])
  }

  /** The value of the first pair named `parameter`, if any. */
  function FirstValue(ps: seq<(string, string)>, parameter: string): Lookup {
    if ps == [] then Null
    else if ps[0].0 == parameter then Value(ps[0].1)
    else FirstValue(ps[1..], parameter)
  }

  lemma EncodedPairSplits(name: string, value: string)
    ensures Split(Encode(name) + "=" + Encode(value), '=') == [Encode(name), Encode(value)]
    ensures NameOf(Encode(name) + "=" + Encode(value)) == Some(name)
    ensures ValueOf(Encode(name) + "=" + Encode(value)) == Value(value)
  {
    var k, v := Encode(name), Encode(value);
    assert '=' !in k by {
      forall i | 0 <= i < |k| ensures k[i] != '=' {
        assert Unescaped(k[i]) || k[i] == '%';
      }
    }
    assert '=' !in v by {
      forall i | 0 <= i < |v| ensures v[i] != '=' {
        assert Unescaped(v[i]) || v[i] == '%';
      }
    }
    SplitAround(k, v, '=');
    SplitNoSeparator(k, '=');
    SplitNoSeparator(v, '=');
    DecodeEncode(name);
    DecodeEncode(value);
  }

  lemma {:induction false} LookupEncodedPairs(ps: seq<(string, string)>, parameter: string)
    ensures LookupPairs(EncodePairs(ps), parameter) == FirstValue(ps, parameter)
    decreases |ps|
  {
    if ps != [] {
      EncodedPairSplits(ps[0].0, ps[0].1);
      assert EncodePairs(ps)[1..] == EncodePairs(ps[1..]);
      LookupEncodedPairs(ps[1..], parameter);
    }
  }

  /**
   * A query built from name/value pairs, each side encoded with encodeURIComponent, gives
   * back the value of the first pair with the requested name, and `null` when there is none.
   */
  lemma EncodedQueryRoundTrip(ps: seq<(string, string)>, parameter: string)
    requires |ps| >= 1
    ensures QueryVariable("?" + Join(EncodePairs(ps), '&'), parameter) == FirstValue(ps, parameter)
  {
    var q := Join(EncodePairs(ps), '&');
    assert QueryOf("?" + q) == q;
    SplitJoin(EncodePairs(ps), '&');
    LookupEncodedPairs(ps, parameter);
  }

  /** Text that getQueryVariable's splitting and decoding leave untouched. */
  predicate Plain(s: string) {
    '%' !in s && '&' !in s && '=' !in s
  }

  /** The pairs `name=value` written out as they are. */
  function PlainPairs(ps: seq<(string, string)>): (vars: seq<string>)
    requires forall i :: 0 <= i < |ps| ==> Plain(ps[i].0) && Plain(ps[i].1)
    ensures |vars| == |ps|
    ensures forall i :: 0 <= i < |vars| ==> '&' !in vars[i]
  {
    if ps == [] then []
    else
      var v := ps[0].0 + "=" + ps[0].1;
      assert Plain(ps[0].0) && Plain(ps[0].1);
      assert forall i :: 0 <= i < |v| ==> v[i] != '&';
      [v] + PlainPairs(ps[1..])
  }

  lemma {:induction false} LookupPlainPairs(ps: seq<(string, string)>, parameter: string)
    requires forall i :: 0 <= i < |ps| ==> Plain(ps[i].0) && Plain(ps[i].1)
    ensures LookupPairs(PlainPairs(ps), parameter) == FirstValue(ps, parameter)
    decreases |ps|
  {
    if ps != [] {
      var k, v := ps[0].0, ps[0].1;
      assert k + "=" + v == k + ['='] + v;
      SplitAround(k, v, '=');
      SplitNoSeparator(k, '=');
      SplitNoSeparator(v, '=');
      DecodePlain(k);
      DecodePlain(v);
      assert PlainPairs(ps)[1..] == PlainPairs(ps[1..]);
      LookupPlainPairs(ps[1..], parameter);
    }
  }

  /** A query of plain pairs, as written, is read back pair by pair, the first match winning. */
  lemma PlainQueryLookup(ps: seq<(string, string)>, parameter: string)
    requires |ps| >= 1
    requires forall i :: 0 <= i < |ps| ==> Plain(ps[i].0) && Plain(ps[i].1)
    ensures QueryVariable("?" + Join(PlainPairs(ps), '&'), parameter) == FirstValue(ps, parameter)
  {
    var q := Join(PlainPairs(ps), '&');
    assert QueryOf("?" + q) == q;
    SplitJoin(PlainPairs(ps), '&');
    LookupPlainPairs(ps, parameter);
  }

  /** A query of one pair is that pair, encoded. */
  lemma OnePairQuery(name: string, term: string)
    ensures Join(EncodePairs([(name, term)]), '&') == Encode(name) + "=" + Encode(term)
  {
    var ps := [(name, term)];
    assert ps[1..] == [];
  }

  /** A link `?name=` + encodeURIComponent(term), for a name of unescaped characters, hands `term` back. */
  lemma ParameterLinkRoundTrip(name: string, term: string)
    requires forall i :: 0 <= i < |name| ==> Unescaped(name[i])
    ensures QueryVariable("?" + name + "=" + Encode(term), name) == Value(term)
  {
    var ps := [(name, term)];
    var q := Join(EncodePairs(ps), '&');
    assert "?" + q == "?" + name + "=" + Encode(term) by {
      EncodePlain(name);
      OnePairQuery(name, term);
    }
    assert QueryVariable("?" + q, name) == Value(term) by {
      EncodedQueryRoundTrip(ps, name);
      assert FirstValue(ps, name) == Value(term);
    }
  }

  /** The same round trip, for a link already spelled out. */
  lemma ParameterLinkRoundTripAt(link: string, name: string, term: string)
    requires forall i :: 0 <= i < |name| ==> Unescaped(name[i])
    requires link == "?" + name + "=" + Encode(term)
    ensures QueryVariable(link, name) == Value(term)
  {
    ParameterLinkRoundTrip(name, term);
  }

  /** The parameter name `search` needs no escaping. */
  lemma SearchNameUnescaped()
    ensures forall i :: 0 <= i < |"search"| ==> Unescaped("search"[i])
  {
  }

  /** A link `?search=` + encodeURIComponent(term) hands `term` back to the page. */
  lemma SearchLinkRoundTrip(term: string)
    ensures QueryVariable("?search=" + Encode(term), "search") == Value(term)
  {
    SearchNameUnescaped();
    assert "?search=" == "?" + "search" + "=";
    ParameterLinkRoundTripAt("?search=" + Encode(term), "search", term);
  }

  /** decodeURIComponent("undefined") is "undefined". */
  lemma UndefinedDecodes()
    ensures Decode("undefined") == Some("undefined")
  {
    DecodePlain("undefined");
  }

  /** A lone name with no `=` has no value component, which decodeURIComponent reads as "undefined". */
  lemma BareNameReadsUndefined(link: string, name: string)
    requires Plain(name)
    requires link == "?" + name
    ensures QueryVariable(link, name) == Value("undefined")
  {
    assert QueryOf(link) == name;
    SplitNoSeparator(name, '&');
    SplitNoSeparator(name, '=');
    DecodePlain(name);
    UndefinedDecodes();
  }

  /**
   * A pair without `=` has no value component; decodeURIComponent(undefined) then yields
   * the text "undefined", so `?search` makes getQueryVariable("search") return "undefined".
   */
  lemma MissingValueReadsUndefined()
    ensures QueryVariable("?search", "search") == Value("undefined")
  {
    assert Plain("search");
    BareNameReadsUndefined("?search", "search");
  }

  /** Only the text between the first and the second `=` of the pair is returned. */
  lemma ValueStopsAtSecondEquals(name: string, value: string, tail: string)
    requires '%' !in name && '=' !in name && '&' !in name
    requires '%' !in value && '=' !in value && '&' !in value && '&' !in tail
    ensures QueryVariable("?" + name + "=" + value + "=" + tail, name) == Value(value)
  {
    var v := name + "=" + value + "=" + tail;
    assert "?" + name + "=" + value + "=" + tail == "?" + v;
    assert QueryOf("?" + v) == v;
    assert '&' !in v;
    SplitNoSeparator(v, '&');
    assert v == name + ['='] + (value + ['='] + tail);
    SplitAround(name, value + ['='] + tail, '=');
    SplitAround(value, tail, '=');
    SplitNoSeparator(name, '=');
    SplitNoSeparator(value, '=');
    var pair := Split(v, '=');
    assert pair == [name] + ([value] + Split(tail, '='));
    assert pair[0] == name && pair[1] == value;
    DecodePlain(name);
    DecodePlain(value);
    assert NameOf(v) == Some(name);
    assert ValueOf(v) == Value(value);
    assert LookupPairs([v], name) == Value(value);
  }
}
