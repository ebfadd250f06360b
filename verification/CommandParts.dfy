/** What the templates, the host and the query of a request turn into, in the terms of whoever configures them. */
module CommandParts {
  import opened Wrappers
  import opened Template
  import opened InferenceCommand

  /** A template text around one placeholder. */
  predicate Around(before: string, after: string) {
    '$' !in before && '$' !in after && (after == "" || !IdChar(after[0]))
  }

  lemma Filled(before: string, name: string, after: string, values: map<string, string>)
    requires Around(before, after) && IsPlaceholder(name) && name in values
    ensures SafeSubstitute(before + ("$" + name + after), values) == before + (values[name] + after)
  {
    ValueGoesInVerbatim(before, name, after, values);
    NoPlaceholder(after, values);
  }

  lemma NamesArePlaceholders()
    ensures IsPlaceholder("model_name") && IsPlaceholder("query_input")
  {
  }

  /** The body takes the query, and the model's name, where its template says so. */
  lemma BodyTakes(u: UserInference, model: string, query: Query, before: string, after: string)
    requires Around(before, after)
    ensures u.config.body == before + ("$" + "query_input" + after) ==>
              Body(u, model, query) == before + ((if query.Text? then query.text else query.dump) + after)
    ensures u.config.body == before + ("$" + "model_name" + after) ==> Body(u, model, query) == before + (model + after)
  {
    NamesArePlaceholders();
    var values := map["model_name" := model, "query_input" := query.Sent()];
    Filled(before, "query_input", after, values);
    Filled(before, "model_name", after, values);
  }

  /** The header takes the model's name and never the query. */
  lemma HeaderTakes(u: UserInference, model: string, before: string, after: string)
    requires Around(before, after)
    ensures u.config.header == before + ("$" + "model_name" + after) ==> Header(u, model) == before + (model + after)
    ensures u.config.header == before + ("$" + "query_input" + after) ==> Header(u, model) == u.config.header
  {
    NamesArePlaceholders();
    var values := map["model_name" := model];
    Filled(before, "model_name", after, values);
    if u.config.header == before + ("$" + "query_input" + after) {
      assert "query_input" !in values by { assert |"query_input"| != |"model_name"|; }
      UnknownStays("query_input", after, values);
      NoPlaceholder(after, values);
      PlainBefore(before, "$" + "query_input" + after, values);
    }
  }

  lemma {:induction false} PlainBefore(before: string, rest: string, values: map<string, string>)
    requires '$' !in before
    ensures SafeSubstitute(before + rest, values) == before + SafeSubstitute(rest, values)
  {
    if before == "" {
      assert before + rest == rest;
    } else {
      assert before[0] in before;
      assert (before + rest)[1..] == before[1..] + rest;
      PlainBefore(before[1..], rest, values);
    }
  }

  lemma {:induction false} WordsOf(word: string, rest: string)
    requires word != "" && ' ' !in word && (rest == "" || rest[0] == ' ')
    ensures WordLength(word + rest) == |word| && Fields(word + rest) == [word] + Fields(rest)
  {
    assert word[0] in word;
    WordLengthOf(word, rest);
    assert (word + rest)[..|word|] == word && (word + rest)[|word|..] == rest;
  }

  lemma {:induction false} WordLengthOf(word: string, rest: string)
    requires ' ' !in word && (rest == "" || rest[0] == ' ')
    ensures WordLength(word + rest) == |word|
  {
    if word == "" {
      assert word + rest == rest;
    } else {
      assert word[0] in word;
      assert (word + rest)[1..] == word[1..] + rest;
      WordLengthOf(word[1..], rest);
    }
  }

  /** What the endpoint template says about the service. */
  function Endpoint(u: UserInference): string {
    SafeSubstitute(u.config.endpoint, map["model_name" := u.serviceName])
  }

  /** Over HTTP the command ends in one URL; over gRPC in the host, with the port when it is exposed, and the method
      to call, as two arguments. Any other protocol is an error. */
  lemma UrlArguments(u: UserInference)
    requires u.host != "" && ' ' !in u.host && Endpoint(u) != "" && ' ' !in Endpoint(u)
    ensures EndpointUrl(u).Ok? <==> u.protocol == "http" || u.protocol == "https" || u.protocol == "grpc"
    ensures u.protocol == "http" || u.protocol == "https" ==>
              Fields(EndpointUrl(u).value) == [u.protocol + "://" + u.host + "/" + Endpoint(u)]
    ensures u.protocol == "grpc" ==>
              Fields(EndpointUrl(u).value) == [if u.exposed then u.host + ":443" else u.host, Endpoint(u)]
  {
    var endpoint := Endpoint(u);
    if u.protocol == "http" || u.protocol == "https" {
      OneWord(u.protocol + "://" + u.host + "/" + endpoint);
    } else if u.protocol == "grpc" {
      var server := u.host + if u.exposed then ":443" else "";
      assert u.host + "" == u.host;
      TwoWords(server, endpoint);
    }
  }

  lemma OneWord(word: string)
    requires word != "" && ' ' !in word
    ensures Fields(word) == [word]
  {
    WordsOf(word, "");
    assert word + "" == word;
  }

  lemma TwoWords(a: string, b: string)
    requires a != "" && ' ' !in a && b != "" && ' ' !in b
    ensures Fields(a + " " + b) == [a, b]
  {
    OneWord(b);
    WordsOf(a, " " + b);
    assert a + " " + b == a + (" " + b) && (" " + b)[1..] == b;
  }

  /** The endpoint names the service, not the model. */
  lemma EndpointTakes(u: UserInference, before: string, after: string)
    requires Around(before, after) && u.config.endpoint == before + ("$" + "model_name" + after)
    ensures Endpoint(u) == before + (u.serviceName + after)
  {
    NamesArePlaceholders();
    Filled(before, "model_name", after, map["model_name" := u.serviceName]);
  }

  /**
   The query sent: the caller's own when no default is asked for, whatever it is; otherwise the configured one, for the
   inference type where there are several, if it is there and not empty.
   */
  lemma QuerySent(u: UserInference, q: Request, query: Query)
    ensures ChosenQuery(u, q) == Ok(query) <==>
              if !q.useDefaultQuery then q.input == Some(query)
              else
                && u.defaults.Some? && query != Text("") && query != Listing("[]")
                && if u.supportsMultipleDefaults then
                     u.inferenceType in u.defaults.value.byType
                     && u.defaults.value.byType[u.inferenceType] == Some(query)
                   else u.defaults.value.single == Some(query)
  {
  }
}
