/**
 * The kernel command-line parser (pkg/cmdline/cmdline.go): the text of
 * /proc/cmdline, split on white space, each parameter split on '='.
 */
module Cmdline {
  import opened Wrappers
  import opened Errors
  import opened Text

  const ProcCmdlinePath := "/proc/cmdline"
  const ExpectedParamCount := 2

  /** The key a parameter contributes: the text before its first '='. */
  function ParamKey(param: string): (k: string)
    ensures k == param[..IndexOf(param, '=')]
  {
    Split(param, '=')[0]
  }

  /**
   * The value a parameter contributes: with exactly one '=' the text after
   * it, with none or with several the empty string.
   */
  function ParamValue(param: string): (v: string)
    ensures Count(param, '=') == 1 ==> param == ParamKey(param) + "=" + v
    ensures Count(param, '=') != 1 ==> v == ""
  {
    SplitCount(param, '=');
    var parts := Split(param, '=');
    if |parts| == ExpectedParamCount then
      SplitJoin(param, '=');
      assert Join(parts, '=') == parts[0] + "=" + Join(parts[1..], '=');
      parts[1]
    else ""
  }

  /** The map the parameters build when entered in order, a later key overwriting an earlier one. */
  function BuildMap(params: seq<string>): map<string, string>
  {
    if params == [] then map[]
    else
      var last := params[|params| - 1];
      BuildMap(params[..|params| - 1])[ParamKey(last) := ParamValue(last)]
  }

  /**
   * ParseProcCmdline: a read failure gives no map; otherwise every
   * white-space separated parameter is entered in order.
   */
  method ParseProcCmdline(data: Result<string, Error>) returns (r: Result<map<string, string>, Error>)
    ensures data.Err? ==> r == Err(Wrapped("failed to read " + ProcCmdlinePath, data.error))
    ensures data.Ok? ==> r == Ok(BuildMap(Fields(data.value)))
  {
    if data.Err? {
      return Err(Wrapped("failed to read " + ProcCmdlinePath, data.error));
    }
    var result: map<string, string> := map[];
    var params := Fields(data.value);
    var i := 0;
    while i < |params|
      invariant 0 <= i <= |params|
      invariant result == BuildMap(params[..i])
    {
      var parts := Split(params[i], '=');
      if |parts| == ExpectedParamCount {
        result := result[parts[0] := parts[1]];
      } else {
        result := result[parts[0] := ""];
      }
      assert params[..i + 1][..i] == params[..i];
      i := i + 1;
    }
    assert params[..i] == params;
    return Ok(result);
  }

  /** The keys of the map are exactly the keys of the parameters. */
  lemma {:induction false} BuildMapKeys(params: seq<string>)
    ensures BuildMap(params).Keys == set p | p in params :: ParamKey(p)
  {
    if params != [] {
      var init := params[..|params| - 1];
      BuildMapKeys(init);
      assert params == init + [params[|params| - 1]];
    }
  }

  /**
   * The last parameter with a given key decides that key's value: a
   * parameter that no later parameter shares its key with keeps its value.
   */
  lemma {:induction false} LastWins(params: seq<string>, i: nat)
    requires i < |params|
    requires forall j :: i < j < |params| ==> ParamKey(params[j]) != ParamKey(params[i])
    ensures ParamKey(params[i]) in BuildMap(params)
    ensures BuildMap(params)[ParamKey(params[i])] == ParamValue(params[i])
  {
    var n := |params| - 1;
    if i < n {
      var init := params[..n];
      assert init[i] == params[i];
      LastWins(init, i);
    }
  }
}
