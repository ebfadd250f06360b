/** `string.Template.safe_substitute`, the placeholder expansion of request bodies, headers and endpoints. */
module Template {

  predicate IdStart(c: char) {
    'a' <= c <= 'z' || 'A' <= c <= 'Z' || c == '_'
  }

  predicate IdChar(c: char) {
    IdStart(c) || '0' <= c <= '9'
  }

  /** Length of the longest run of identifier characters at the start of `s`. */
  function IdLength(s: string): (n: nat)
    ensures n <= |s|
    ensures forall i | 0 <= i < n :: IdChar(s[i])
    ensures n < |s| ==> !IdChar(s[n])
  {
    if s != "" && IdChar(s[0]) then 1 + IdLength(s[1..]) else 0
  }

  function SafeSubstitute(tpl: string, values: map<string, string>): string
    decreases |tpl|
  {
    if tpl == "" then ""
    else if tpl[0] != '$' then [tpl[0]] + SafeSubstitute(tpl[1..], values)
    else if |tpl| > 1 && tpl[1] == '$' then "$" + SafeSubstitute(tpl[2..], values)
    else if |tpl| > 1 && IdStart(tpl[1]) then
      var end := 1 + IdLength(tpl[1..]);
      Insert(tpl[1..end], tpl[..end], values) + SafeSubstitute(tpl[end..], values)
    else if |tpl| > 2 && tpl[1] == '{' && IdStart(tpl[2]) && Closed(tpl) then
      var end := 2 + IdLength(tpl[2..]);
      Insert(tpl[2..end], tpl[..end + 1], values) + SafeSubstitute(tpl[end + 1..], values)
    else "$" + SafeSubstitute(tpl[1..], values)
  }

  predicate Closed(tpl: string)
    requires |tpl| > 2
  {
    var end := 2 + IdLength(tpl[2..]);
    end < |tpl| && tpl[end] == '}'
  }

  /** An unknown placeholder is left as it was written. */
  function Insert(name: string, written: string, values: map<string, string>): string {
    if name in values then values[name] else written
  }

  /** Expansion brings in no character that neither the template nor a value holds, `$` aside. */
  lemma {:induction false} SubstituteAddsNothing(tpl: string, values: map<string, string>, c: char)
    requires c != '$' && c !in tpl
    requires forall name | name in values :: c !in values[name]
    ensures c !in SafeSubstitute(tpl, values)
    decreases |tpl|
  {
    if tpl == "" {
    } else if tpl[0] != '$' {
      SubstituteAddsNothing(tpl[1..], values, c);
    } else if |tpl| > 1 && tpl[1] == '$' {
      SubstituteAddsNothing(tpl[2..], values, c);
    } else if |tpl| > 1 && IdStart(tpl[1]) {
      SubstituteAddsNothing(tpl[1 + IdLength(tpl[1..])..], values, c);
    } else if |tpl| > 2 && tpl[1] == '{' && IdStart(tpl[2]) && Closed(tpl) {
      SubstituteAddsNothing(tpl[3 + IdLength(tpl[2..])..], values, c);
    } else {
      SubstituteAddsNothing(tpl[1..], values, c);
    }
  }

  lemma {:induction false} IdLengthOfName(name: string, rest: string)
    requires forall c | c in name :: IdChar(c)
    requires rest == "" || !IdChar(rest[0])
    ensures IdLength(name + rest) == |name|
  {
    if name == "" {
      assert name + rest == rest;
    } else {
      assert (name + rest)[0] == name[0] && (name + rest)[1..] == name[1..] + rest;
      IdLengthOfName(name[1..], rest);
    }
  }

  lemma PlaceholderFirst(name: string, after: string, values: map<string, string>)
    requires name in values && name != "" && IdStart(name[0]) && forall c | c in name :: IdChar(c)
    requires after == "" || !IdChar(after[0])
    ensures SafeSubstitute("$" + name + after, values) == values[name] + SafeSubstitute(after, values)
  {
    var tpl, n := "$" + name + after, |name|;
    assert tpl[1..] == name + after;
    IdLengthOfName(name, after);
    assert tpl[1..1 + n] == name && tpl[1 + n..] == after;
    assert tpl[0] == '$' && tpl[1] == name[0] && tpl[1] != '$';
  }

  predicate IsPlaceholder(name: string) {
    name != "" && IdStart(name[0]) && forall c | c in name :: IdChar(c)
  }

  /** In braces the name may be followed by anything. */
  lemma BracedFirst(name: string, after: string, values: map<string, string>)
    requires IsPlaceholder(name)
    ensures SafeSubstitute("${" + name + ("}" + after), values)
         == (if name in values then values[name] else "${" + name + "}") + SafeSubstitute(after, values)
  {
    var tpl, n := "${" + name + ("}" + after), |name|;
    assert tpl[2..] == name + ("}" + after);
    IdLengthOfName(name, "}" + after);
    assert tpl[2..2 + n] == name && tpl[2 + n] == '}' && tpl[3 + n..] == after;
    assert tpl[..3 + n] == "${" + name + "}";
    assert tpl[0] == '$' && tpl[1] == '{' && tpl[2] == name[0];
  }

  /** A name without a value stays as it was written, and a doubled sign is one sign. */
  lemma UnknownStays(name: string, after: string, values: map<string, string>)
    requires IsPlaceholder(name) && name !in values && (after == "" || !IdChar(after[0]))
    ensures SafeSubstitute("$" + name + after, values) == "$" + name + SafeSubstitute(after, values)
    ensures SafeSubstitute("$$" + after, values) == "$" + SafeSubstitute(after, values)
  {
    var tpl, n := "$" + name + after, |name|;
    assert tpl[1..] == name + after;
    IdLengthOfName(name, after);
    assert tpl[1..1 + n] == name && tpl[1 + n..] == after && tpl[..1 + n] == "$" + name;
    assert tpl[0] == '$' && tpl[1] == name[0] && tpl[1] != '$';
    assert ("$$" + after)[2..] == after;
  }

  /** A sign that begins no placeholder stays. */
  lemma LoneSign(after: string, values: map<string, string>)
    requires after == "" || (!IdStart(after[0]) && after[0] != '$' && after[0] != '{')
    ensures SafeSubstitute("$" + after, values) == "$" + SafeSubstitute(after, values)
  {
    assert ("$" + after)[1..] == after;
  }

  /** Without a sign nothing is replaced. */
  lemma {:induction false} NoPlaceholder(tpl: string, values: map<string, string>)
    requires '$' !in tpl
    ensures SafeSubstitute(tpl, values) == tpl
  {
    if tpl != "" {
      assert tpl[0] in tpl;
      NoPlaceholder(tpl[1..], values);
    }
  }

  /** Values go in verbatim and are never expanded again, whatever `$` signs they hold themselves. */
  lemma {:induction false} ValueGoesInVerbatim(before: string, name: string, after: string, values: map<string, string>)
    requires '$' !in before
    requires name in values && name != "" && IdStart(name[0]) && forall c | c in name :: IdChar(c)
    requires after == "" || !IdChar(after[0])
    ensures SafeSubstitute(before + ("$" + name + after), values)
         == before + (values[name] + SafeSubstitute(after, values))
    decreases |before|
  {
    var placeholder := "$" + name + after;
    if before == "" {
      PlaceholderFirst(name, after, values);
      assert before + placeholder == placeholder;
    } else {
      assert before[0] in before;
      assert (before + placeholder)[0] == before[0] && (before + placeholder)[1..] == before[1..] + placeholder;
      ValueGoesInVerbatim(before[1..], name, after, values);
    }
  }
}
