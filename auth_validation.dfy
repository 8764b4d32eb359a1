/**
 * backend/validations/authValidation.js: the register and login schemas.
 * Unknown keys are refused; `string()` refuses ''.
 */
module AuthValidation {
  import opened Wrappers
  import opened Json
  import Text

  /** The position of the first `c` in `s`. */
  function IndexOf(s: string, c: char): (r: Option<nat>)
    ensures r.None? <==> c !in s
    ensures r.Some? ==> r.value < |s| && s[r.value] == c && c !in s[..r.value]
  {
    if |s| == 0 then None
    else if s[0] == c then Some(0)
    else
      var rest := IndexOf(s[1..], c);
      assert s == [s[0]] + s[1..];
      if rest.None? then None
      else
        assert s[..rest.value + 1] == [s[0]] + s[1..][..rest.value];
        Some(rest.value + 1)
  }

  /** A domain of at least two non-empty dot-separated labels. */
  predicate DomainOk(d: string) {
    && |d| >= 3
    && '.' in d
    && d[0] != '.' && d[|d| - 1] != '.'
    && (forall i :: 0 <= i < |d| - 1 ==> !(d[i] == '.' && d[i + 1] == '.'))
  }

  /**
   * Joi `string().email()`, simplified: no white space, exactly one '@',
   * a non-empty local part and a dotted domain.
   */
  predicate EmailOk(s: string) {
    && (forall i :: 0 <= i < |s| ==> !Text.IsJsSpace(s[i]))
    && var at := IndexOf(s, '@');
       && at.Some?
       && at.value > 0
       && '@' !in s[at.value + 1..]
       && DomainOk(s[at.value + 1..])
  }

  /** `registerValidationSchema`: name, a well-formed email, a password of at least 6 characters; nothing else. */
  predicate RegisterValid(body: Body) {
    && body.Keys <= {"name", "email", "password"}
    && "name" in body && body["name"].JStr? && body["name"].s != ""
    && "email" in body && body["email"].JStr? && EmailOk(body["email"].s)
    && "password" in body && body["password"].JStr? && |body["password"].s| >= 6
  }

  /** `loginValidationSchema`: a well-formed email and a non-empty password; nothing else. */
  predicate LoginValid(body: Body) {
    && body.Keys <= {"email", "password"}
    && "email" in body && body["email"].JStr? && EmailOk(body["email"].s)
    && "password" in body && body["password"].JStr? && body["password"].s != ""
  }

  /** A well-formed email is never empty and has its '@' strictly inside. */
  lemma EmailShape(s: string)
    requires EmailOk(s)
    ensures |s| >= 5 && '@' in s && s[0] != '@' && s[|s| - 1] != '@'
  {
  }

  /** A password shorter than six characters is refused at registration, whatever else is sent. */
  lemma ShortPasswordRefused(body: Body)
    requires "password" in body && body["password"].JStr? && |body["password"].s| < 6
    ensures !RegisterValid(body)
  {
  }

  /** Every body that may register may also log in with its email and password. */
  lemma RegisterBodyLogsIn(body: Body)
    requires RegisterValid(body)
    ensures LoginValid(map["email" := body["email"], "password" := body["password"]])
  {
  }

  /** The '@' of the sample address is at position 3, and its domain has none. */
  lemma SampleSplit()
    ensures IndexOf("ana@x.co", '@') == Some(3)
    ensures "ana@x.co"[4..] == "x.co" && '@' !in "x.co"
  {
    var s := "ana@x.co";
    assert s[3..] == ['@'] + s[4..];
    assert IndexOf(s[3..], '@') == Some(0);
    assert s[2..][1..] == s[3..];
    assert IndexOf(s[2..], '@') == Some(1);
    assert s[1..][1..] == s[2..];
    assert IndexOf(s[1..], '@') == Some(2);
    assert s[4..] == "x.co";
  }

  /** A sample address is accepted. */
  lemma EmailAccepted()
    ensures EmailOk("ana@x.co")
  {
    SampleSplit();
    SampleNoSpace();
    SampleDomain();
  }

  /** The sample address holds no white space. */
  lemma SampleNoSpace()
    ensures forall i :: 0 <= i < |"ana@x.co"| ==> !Text.IsJsSpace("ana@x.co"[i])
  {
    var s := "ana@x.co";
    forall i | 0 <= i < |s| ensures !Text.IsJsSpace(s[i]) {
      assert s[i] in {'a', 'n', '@', 'x', '.', 'c', 'o'};
    }
  }

  /** The sample domain is dotted. */
  lemma SampleDomain()
    ensures DomainOk("x.co")
  {
    assert "x.co"[1] == '.';
  }

  /** Addresses without an '@', with an empty local part, or with an undotted domain are refused. */
  lemma EmailRefused()
    ensures !EmailOk("ana")
    ensures !EmailOk("@x.co")
    ensures !EmailOk("a@xco")
  {
    assert IndexOf("@x.co", '@') == Some(0);
    assert '.' !in "a@xco"[2..];
  }
}
