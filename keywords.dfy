/** Keyword arguments passed through `**kwargs` to a registry constructor,
    and how Python binds them to the constructor's parameters. */
module Keywords {
  import opened Outcomes

  /** A keyword argument's value. */
  datatype Arg = IntArg(i: int) | StrArg(s: string) | BoolArg(b: bool)

  /** Keyword arguments in call order. */
  type Kwargs = seq<(string, Arg)>

  /** The default `timeout` of both registries. */
  const DefaultTimeout: Arg := IntArg(5)

  /** Binding keyword arguments to parameters `(self, <url>, name, timeout)`
      where `self`, the URL and the name are already given positionally:
      each keyword is looked at in order; one naming a positional parameter
      fails with "multiple values", `timeout` is bound, and any other keyword
      goes to `**options` when the constructor has it and fails as
      unexpected when it does not. The result is the timeout and the
      options. */
  function Bind(kwargs: Kwargs, positional: set<string>, acceptsOptions: bool, timeout: Arg): Result<(Arg, Kwargs)>
    decreases |kwargs|
  {
    if |kwargs| == 0 then Ok((timeout, []))
    else
      var key := kwargs[0].0;
      if key in positional then Err(DuplicateArgument(key))
      else if key == "timeout" then Bind(kwargs[1..], positional, acceptsOptions, kwargs[0].1)
      else if acceptsOptions then
        var rest :- Bind(kwargs[1..], positional, acceptsOptions, timeout);
        Ok((rest.0, [kwargs[0]] + rest.1))
      else Err(UnexpectedKeyword(key))
  }

  /** Binding keyword arguments to a signature `(<positional>, **kwargs)`
      whose positional parameters are all given: the first keyword naming
      one of them fails with "multiple values"; otherwise every keyword is
      collected into `**kwargs`, in call order. */
  function Collect(kwargs: Kwargs, positional: set<string>): (r: Result<Kwargs>)
    ensures r.Ok? <==> forall i :: 0 <= i < |kwargs| ==> kwargs[i].0 !in positional
    ensures r.Ok? ==> r.value == kwargs
    ensures r.Err? ==>
      exists i :: 0 <= i < |kwargs| && kwargs[i].0 in positional
        && (forall j :: 0 <= j < i ==> kwargs[j].0 !in positional)
        && r.error == DuplicateArgument(kwargs[i].0)
    decreases |kwargs|
  {
    if |kwargs| == 0 then Ok([])
    else if kwargs[0].0 in positional then Err(DuplicateArgument(kwargs[0].0))
    else
      var rest :- Collect(kwargs[1..], positional);
      Ok([kwargs[0]] + rest)
  }

  /** A keyword that `Bind` rejects. */
  predicate Rejected(key: string, positional: set<string>, acceptsOptions: bool)
  {
    key in positional || (key != "timeout" && !acceptsOptions)
  }

  /** Binding fails exactly when some keyword is rejected, and then with the
      error for the first one; otherwise the options are the keywords other
      than `timeout`, in call order, and the timeout is the last one given
      or the default. */
  lemma {:induction false} BindSpec(kwargs: Kwargs, positional: set<string>, acceptsOptions: bool, timeout: Arg)
    requires "timeout" !in positional
    ensures Bind(kwargs, positional, acceptsOptions, timeout).Ok?
      <==> forall i :: 0 <= i < |kwargs| ==> !Rejected(kwargs[i].0, positional, acceptsOptions)
    ensures Bind(kwargs, positional, acceptsOptions, timeout).Err? ==>
      exists i :: 0 <= i < |kwargs| && Rejected(kwargs[i].0, positional, acceptsOptions)
        && (forall j :: 0 <= j < i ==> !Rejected(kwargs[j].0, positional, acceptsOptions))
        && Bind(kwargs, positional, acceptsOptions, timeout).error
           == (if kwargs[i].0 in positional then DuplicateArgument(kwargs[i].0) else UnexpectedKeyword(kwargs[i].0))
    ensures Bind(kwargs, positional, acceptsOptions, timeout).Ok? ==>
      Bind(kwargs, positional, acceptsOptions, timeout).value.1 == WithoutTimeout(kwargs)
      && Bind(kwargs, positional, acceptsOptions, timeout).value.0 == LastTimeout(kwargs, timeout)
    decreases |kwargs|
  {
    if |kwargs| > 0 {
      var key := kwargs[0].0;
      if !Rejected(key, positional, acceptsOptions) {
        BindSpec(kwargs[1..], positional, acceptsOptions, if key == "timeout" then kwargs[0].1 else timeout);
        if key != "timeout" {
          BindSpec(kwargs[1..], positional, acceptsOptions, timeout);
        }
        if Bind(kwargs, positional, acceptsOptions, timeout).Err? {
          var tail := if key == "timeout" then kwargs[0].1 else timeout;
          var i :| 0 <= i < |kwargs[1..]| && Rejected(kwargs[1..][i].0, positional, acceptsOptions)
            && (forall j :: 0 <= j < i ==> !Rejected(kwargs[1..][j].0, positional, acceptsOptions))
            && Bind(kwargs[1..], positional, acceptsOptions, tail).error
               == (if kwargs[1..][i].0 in positional then DuplicateArgument(kwargs[1..][i].0) else UnexpectedKeyword(kwargs[1..][i].0));
          assert Rejected(kwargs[i + 1].0, positional, acceptsOptions);
        }
      }
    }
  }

  /** The keyword arguments other than `timeout`, in order. */
  function WithoutTimeout(kwargs: Kwargs): Kwargs
  {
    if |kwargs| == 0 then []
    else if kwargs[0].0 == "timeout" then WithoutTimeout(kwargs[1..])
    else [kwargs[0]] + WithoutTimeout(kwargs[1..])
  }

  /** The value of the last `timeout` keyword, or `default`. */
  function LastTimeout(kwargs: Kwargs, default: Arg): Arg
  {
    if |kwargs| == 0 then default
    else LastTimeout(kwargs[1..], if kwargs[0].0 == "timeout" then kwargs[0].1 else default)
  }

  /** Without keyword arguments the timeout is the default and there are no
      options. */
  lemma BindNone(positional: set<string>, acceptsOptions: bool)
    ensures Bind([], positional, acceptsOptions, DefaultTimeout) == Ok((IntArg(5), []))
  {
  }
}
