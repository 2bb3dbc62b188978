/** The text of a query: what is sent after the path, and what is signed. */
module QueryString {
  import opened Text

  /** A name and its value, in the order of the names. */
  type Parameter = (string, string)

  // ---------------------------------------------------------------- writing

  function Field(p: Parameter): string
  {
    p.0 + "=" + p.1
  }

  /** The fields with "&" between them. */
  function Encode(parameters: seq<Parameter>): string
  {
    if parameters == [] then ""
    else if |parameters| == 1 then Field(parameters[0])
    else Field(parameters[0]) + "&" + Encode(parameters[1..])
  }

  /** The last field of an encoding. */
  lemma {:induction false} EncodeLast(parameters: seq<Parameter>, p: Parameter)
    requires parameters != []
    ensures Encode(parameters + [p]) == Encode(parameters) + "&" + Field(p)
  {
    var all := parameters + [p];
    assert all[1..] == parameters[1..] + [p];
    if |parameters| > 1 {
      EncodeLast(parameters[1..], p);
      var first, rest := Field(parameters[0]), Encode(parameters[1..]);
      assert first + "&" + (rest + "&" + Field(p)) == (first + "&" + rest) + "&" + Field(p);
    } else {
      assert all[1..] == [p];
    }
  }

  method CreateQueryStr(parameters: seq<Parameter>) returns (queryStr: string)
    ensures queryStr == Encode(parameters)
  {
    hide Field, Encode;
    queryStr := "";
    for i := 0 to |parameters|
      invariant i == 0 ==> queryStr == ""
      invariant i > 0 ==> queryStr == Encode(parameters[..i]) + "&"
    {
      queryStr := queryStr + parameters[i].0;
      queryStr := queryStr + "=";
      queryStr := queryStr + parameters[i].1;
      queryStr := queryStr + "&";
      AppendField(parameters, i);
    }
    if queryStr != "" {
      queryStr := queryStr[..|queryStr| - 1];
    }
    EncodeNothing();
    assert parameters[..|parameters|] == parameters;
  }

  lemma EncodeNothing()
    ensures Encode([]) == ""
  {
  }

  lemma AppendField(parameters: seq<Parameter>, i: nat)
    requires i < |parameters|
    ensures var p := parameters[i];
            var before := if i == 0 then "" else Encode(parameters[..i]) + "&";
            before + p.0 + "=" + p.1 + "&" == Encode(parameters[..i + 1]) + "&"
  {
    hide Encode;
    var p := parameters[i];
    assert parameters[..i + 1] == parameters[..i] + [p];
    if i == 0 {
      assert parameters[..1] == [p];
      EncodeOne(p);
    } else {
      EncodeLast(parameters[..i], p);
      assert Encode(parameters[..i]) + "&" + p.0 + "=" + p.1 == Encode(parameters[..i]) + "&" + Field(p);
    }
  }

  lemma EncodeOne(p: Parameter)
    ensures Encode([p]) == Field(p)
  {
  }

  // ---------------------------------------------------------------- reading

  /** Where a letter occurs first, or the length of the text. */
  function FirstIndex(s: string, c: char): (i: nat)
    ensures i <= |s|
    ensures c !in s[..i]
    ensures i < |s| <==> c in s
    ensures i < |s| ==> s[i] == c
  {
    if s == [] || s[0] == c then 0
    else
      var i := FirstIndex(s[1..], c);
      assert s[..i + 1] == [s[0]] + s[1..][..i];
      assert s == [s[0]] + s[1..];
      i + 1
  }

  lemma {:induction false} FirstIndexIs(before: string, c: char, rest: string)
    requires c !in before
    ensures FirstIndex(before + [c] + rest, c) == |before|
  {
    if before != [] {
      assert (before + [c] + rest)[1..] == before[1..] + [c] + rest;
      FirstIndexIs(before[1..], c, rest);
    }
  }

  /** A field read back: the name ends at the first "=". */
  function ReadField(field: string): Parameter
  {
    var i := FirstIndex(field, '=');
    if i < |field| then (field[..i], field[i + 1..]) else (field, "")
  }

  /** A query read back: fields end at "&". */
  function Decode(query: string): seq<Parameter>
  {
    if query == "" then [] else ReadFields(Split(query, '&'))
  }

  function ReadFields(fields: seq<string>): (parameters: seq<Parameter>)
    ensures |parameters| == |fields|
    ensures forall i :: 0 <= i < |fields| ==> parameters[i] == ReadField(fields[i])
  {
    seq(|fields|, i requires 0 <= i < |fields| => ReadField(fields[i]))
  }

  predicate CleanParameter(p: Parameter)
  {
    '=' !in p.0 && '&' !in p.0 && '&' !in p.1
  }

  /** No name holds "=" or "&", and no value holds "&". */
  predicate Clean(parameters: seq<Parameter>)
  {
    forall i :: 0 <= i < |parameters| ==> CleanParameter(parameters[i])
  }

  lemma FieldReadsBack(p: Parameter)
    requires CleanParameter(p)
    ensures ReadField(Field(p)) == p && '&' !in Field(p)
  {
    var field := Field(p);
    assert field[..|p.0|] == p.0 && field[|p.0| + 1..] == p.1;
    FirstIndexIs(p.0, '=', p.1);
  }

  lemma ReadIsClean(field: string)
    requires '&' !in field
    ensures CleanParameter(ReadField(field))
  {
  }

  lemma {:induction false} CleanReadsBack(parameters: seq<Parameter>)
    requires Clean(parameters)
    ensures Decode(Encode(parameters)) == parameters
  {
    hide ReadField, CleanParameter, Split;
    if parameters != [] {
      var p, rest := parameters[0], parameters[1..];
      FieldReadsBack(p);
      if rest == [] {
        SplitPlain(Field(p), '&');
        assert parameters == [p];
      } else {
        CleanReadsBack(rest);
        SplitFirst(Field(p), '&', Encode(rest));
        EncodeNonempty(rest);
        assert ReadFields([Field(p)] + Split(Encode(rest), '&')) == [p] + rest;
        assert parameters == [p] + rest;
      }
    }
  }

  lemma EncodeNonempty(parameters: seq<Parameter>)
    requires parameters != []
    ensures Encode(parameters) != ""
  {
  }

  /** Whatever is read from a query is clean. */
  lemma DecodedIsClean(query: string)
    ensures Clean(Decode(query))
  {
    hide ReadField, CleanParameter;
    if query != "" {
      var fields := Split(query, '&');
      RecordsArePlain(query, '&');
      forall i | 0 <= i < |fields| ensures CleanParameter(ReadFields(fields)[i]) {
        ReadIsClean(fields[i]);
      }
    }
  }

  /**
   Nothing is escaped when a query is written. Reading it gives the parameters back, in
   their order, exactly when no name holds "=" or "&" and no value holds "&".
   */
  lemma ReadsBackExactlyWhenClean(parameters: seq<Parameter>)
    ensures Decode(Encode(parameters)) == parameters <==> Clean(parameters)
  {
    hide Decode, Encode, Clean;
    if Clean(parameters) {
      CleanReadsBack(parameters);
    }
    DecodedIsClean(Encode(parameters));
  }

  /** Two clean queries with the same text have the same parameters. */
  lemma CleanQueriesDiffer(a: seq<Parameter>, b: seq<Parameter>)
    requires Clean(a) && Clean(b) && Encode(a) == Encode(b)
    ensures a == b
  {
    hide Decode, Encode, Clean;
    CleanReadsBack(a);
    CleanReadsBack(b);
  }

  // ---------------------------------------------------------------- signing

  /** The target of a request: path, then "?" and the query if there is one. */
  function Target(path: string, query: string): string
  {
    if query == "" then path else path + "?" + query
  }

  /** A target begins with the path itself; only "?" and a query that is not empty follow. */
  lemma TargetBeginsWithThePath(path: string, query: string)
    ensures path <= Target(path, query)
    ensures query == "" ==> |Target(path, query)| == |path|
    ensures query != "" ==>
              && |Target(path, query)| == |path| + 1 + |query| && Target(path, query)[|path|] == '?'
              && Target(path, query)[|path| + 1..] == query
  {
    assert Target(path, query)[..|path|] == path;
  }

  /** What follows the first "?" of a target. */
  function Query(target: string): string
  {
    var pos := FirstIndex(target, '?');
    if pos < |target| then target[pos + 1..] else ""
  }

  /** The text that is signed with the request. */
  method AuthenticateNonPost(target: string, timestamp: string, apiKey: string, receiveWindow: string)
    returns (parameterString: string)
    ensures parameterString == timestamp + apiKey + receiveWindow + Query(target)
  {
    var pos := FirstIndex(target, '?');
    var queryString := "";
    if pos < |target| {
      queryString := target[pos + 1..];
    }
    parameterString := "";
    parameterString := parameterString + timestamp;
    parameterString := parameterString + apiKey;
    parameterString := parameterString + receiveWindow;
    parameterString := parameterString + queryString;
  }

  method Get(path: string, parameters: seq<Parameter>, timestamp: string, apiKey: string, receiveWindow: string)
    returns (target: string, signed: string)
    ensures target == Target(path, Encode(parameters))
    ensures signed == timestamp + apiKey + receiveWindow + Query(target)
  {
    hide Encode, Query;
    target := path;
    var queryString := CreateQueryStr(parameters);
    if queryString != "" {
      target := target + "?";
      target := target + queryString;
    }
    signed := AuthenticateNonPost(target, timestamp, apiKey, receiveWindow);
  }

  /** After a path without "?", the first "?" is the one that was appended. */
  lemma AppendedIsSigned(path: string, query: string)
    requires '?' !in path
    ensures Query(Target(path, query)) == query
  {
    if query != "" {
      FirstIndexIs(path, '?', query);
      assert (path + "?" + query)[|path| + 1..] == query;
    }
  }

  /** In a path with "?", everything after it is signed. */
  lemma RestOfPathIsSigned(path: string, query: string)
    requires '?' in path
    ensures |Query(Target(path, query))| == |Target(path, query)| - 1 - FirstIndex(path, '?')
  {
  }

  /**
   The query that is signed is the query that was appended exactly when the path holds no
   "?", or nothing was appended to a path whose first "?" is its last letter.
   */
  lemma SignedIsAppendedExactlyWhen(path: string, query: string)
    ensures Query(Target(path, query)) == query <==>
            '?' !in path || (query == "" && FirstIndex(path, '?') == |path| - 1)
  {
    hide Query;
    if '?' in path {
      RestOfPathIsSigned(path, query);
    } else {
      AppendedIsSigned(path, query);
    }
  }

  /** The parameters can be read from the signed text of every clean request. */
  lemma SignedNamesTheParameters(path: string, parameters: seq<Parameter>)
    requires '?' !in path && Clean(parameters)
    ensures Decode(Query(Target(path, Encode(parameters)))) == parameters
  {
    hide Decode, Encode, Clean, Query, Target;
    AppendedIsSigned(path, Encode(parameters));
    CleanReadsBack(parameters);
  }
}
