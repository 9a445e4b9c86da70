/**
 * Cross-stack parameters of the infrastructure (infra/lib/parameters.ts):
 * the export-name sanitizer shared by producer and consumer stacks, the SSM
 * and export lookups that fill a parameter dictionary, and the creation of
 * SSM parameters and stack outputs on a construct scope.
 *
 * The CDK calls `ssm.StringParameter.valueFromLookup` and `cdk.Fn.importValue`
 * are uninterpreted functions passed in by the caller. A dictionary argument
 * is the sequence of its entries in `Object.entries` order; its keys are
 * distinct because it is an object.
 */
module Parameters {
  import opened Text

  predicate IsAlnum(c: char)
  {
    'A' <= c <= 'Z' || 'a' <= c <= 'z' || '0' <= c <= '9'
  }

  /** The characters `[A-Za-z0-9-]` kept in the environment part. */
  predicate IsEnvChar(c: char)
  {
    IsAlnum(c) || c == '-'
  }

  /** The characters `[A-Za-z0-9-:]` kept in the name part (CloudFormation's export-name alphabet). */
  predicate IsNameChar(c: char)
  {
    IsEnvChar(c) || c == ':'
  }

  /** No two adjacent hyphens. */
  predicate NoDoubleHyphen(s: string)
  {
    |s| < 2 || (!(s[0] == '-' && s[1] == '-') && NoDoubleHyphen(s[1..]))
  }

  /** Every character of `s` satisfies `p`. */
  predicate AllChars(s: string, p: char -> bool)
  {
    forall i :: 0 <= i < |s| ==> p(s[i])
  }

  /** An environment is already normal: legal characters, no run of hyphens, no hyphen at either end. */
  predicate IsNormalEnv(s: string)
  {
    AllChars(s, IsEnvChar) && NoDoubleHyphen(s) && (s == [] || (s[0] != '-' && s[|s| - 1] != '-'))
  }

  /** A name is already normal: legal characters and no run of hyphens (it may start or end with one). */
  predicate IsNormalName(s: string)
  {
    AllChars(s, IsNameChar) && NoDoubleHyphen(s)
  }

  /** `s.replace(/[^...]/g, '-')`: every character outside the alphabet becomes a hyphen. */
  function ReplaceDisallowed(s: string, allowed: char -> bool): string
  {
    seq(|s|, i requires 0 <= i < |s| => if allowed(s[i]) then s[i] else '-')
  }

  /** `s.replace(/_/g, '-')`. */
  function ReplaceUnderscores(s: string): string
  {
    seq(|s|, i requires 0 <= i < |s| => if s[i] == '_' then '-' else s[i])
  }

  /** `s.replace(/-+/g, '-')`: every run of hyphens becomes a single hyphen. */
  function CollapseHyphens(s: string): (r: string)
    ensures NoDoubleHyphen(r)
    ensures |r| <= |s|
    ensures |s| > 0 ==> |r| > 0 && r[0] == s[0] && r[|r| - 1] == s[|s| - 1]
  {
    if |s| <= 1 then s
    else if s[0] == '-' && s[1] == '-' then CollapseHyphens(s[1..])
    else [s[0]] + CollapseHyphens(s[1..])
  }

  /** Collapsing only removes characters, so it keeps any property all characters share. */
  lemma {:induction false} CollapseKeepsAlphabet(s: string, p: char -> bool)
    requires AllChars(s, p)
    ensures AllChars(CollapseHyphens(s), p)
  {
    if |s| > 1 {
      CollapseKeepsAlphabet(s[1..], p);
    }
  }

  lemma {:induction false} NoDoubleHyphenAt(s: string, i: nat)
    requires NoDoubleHyphen(s) && i + 1 < |s|
    ensures !(s[i] == '-' && s[i + 1] == '-')
  {
    if i > 0 { NoDoubleHyphenAt(s[1..], i - 1); }
  }

  lemma {:induction false} NoDoubleHyphenPrefix(s: string, k: nat)
    requires NoDoubleHyphen(s) && k <= |s|
    ensures NoDoubleHyphen(s[..k])
  {
    if k >= 2 {
      NoDoubleHyphenPrefix(s[1..], k - 1);
      assert s[..k][1..] == s[1..][..k - 1];
    }
  }

  lemma {:induction false} NoHyphenNoDouble(s: string)
    requires '-' !in s
    ensures NoDoubleHyphen(s)
  {
    if |s| >= 2 { NoHyphenNoDouble(s[1..]); }
  }

  /** `s.replace(/^-|-$/g, '')`: one leading and then one trailing hyphen removed. */
  function StripEdgeHyphens(s: string): string
  {
    var t := if |s| > 0 && s[0] == '-' then s[1..] else s;
    if |t| > 0 && t[|t| - 1] == '-' then t[..|t| - 1] else t
  }

  /** Removing the edge hyphens of a string without runs of hyphens leaves a normal environment. */
  lemma StripEdgeHyphensNormal(c: string)
    requires AllChars(c, IsEnvChar) && NoDoubleHyphen(c)
    ensures IsNormalEnv(StripEdgeHyphens(c))
  {
    var t := if |c| > 0 && c[0] == '-' then c[1..] else c;
    if |c| >= 2 { NoDoubleHyphenAt(c, 0); }
    assert t == [] || t[0] != '-';
    if |t| >= 2 {
      NoDoubleHyphenAt(t, |t| - 2);
      NoDoubleHyphenPrefix(t, |t| - 1);
    }
  }

  /** The environment as the sanitizer uses it (parameters.ts lines 8-12); the result is normal. */
  function NormalizeEnv(stackEnv: string): (r: string)
    ensures IsNormalEnv(r)
  {
    var m := ReplaceDisallowed(JsTrim(stackEnv), IsEnvChar);
    var c := CollapseHyphens(m);
    CollapseKeepsAlphabet(m, IsEnvChar);
    StripEdgeHyphensNormal(c);
    StripEdgeHyphens(c)
  }

  /**
   * The logical name as the sanitizer uses it (parameters.ts lines 13-16): the
   * result is normal, and it is empty only when the name is.
   */
  function NormalizeName(baseName: string): (r: string)
    ensures IsNormalName(r)
    ensures |r| <= |baseName| && (|baseName| > 0 ==> |r| > 0)
  {
    var m := ReplaceDisallowed(ReplaceUnderscores(baseName), IsNameChar);
    CollapseKeepsAlphabet(m, IsNameChar);
    CollapseHyphens(m)
  }

  const MaxExportNameLength: nat := 255

  /**
   * The CloudFormation export name for `(stackEnv, baseName)`: the normalised
   * name alone when the normalised environment is empty, otherwise the
   * environment cut to the room left by the separator and the name, a hyphen,
   * and the name.
   */
  function StackExportName(stackEnv: string, baseName: string): string
  {
    JoinExport(NormalizeEnv(stackEnv), NormalizeName(baseName))
  }

  /** The assembly step of the sanitizer on already normalised parts (parameters.ts lines 17-25). */
  function JoinExport(safeEnv: string, safeName: string): string
  {
    if safeEnv == [] then safeName
    else safeEnv[..EnvRoom(safeEnv, safeName)] + "-" + safeName
  }

  /**
   * Every character of an export name is in `[A-Za-z0-9-:]`; the name ends
   * with the normalised logical name and what comes before it is in
   * `[A-Za-z0-9-]`, so a colon can only come from the logical name.
   */
  lemma ExportNameAlphabet(stackEnv: string, baseName: string)
    ensures var r, name := StackExportName(stackEnv, baseName), NormalizeName(baseName);
      AllChars(r, IsNameChar) &&
      |r| >= |name| && r[|r| - |name|..] == name && AllChars(r[..|r| - |name|], IsEnvChar)
  {
    JoinExportAlphabet(NormalizeEnv(stackEnv), NormalizeName(baseName));
  }

  lemma JoinExportAlphabet(env: string, name: string)
    requires AllChars(env, IsEnvChar) && AllChars(name, IsNameChar)
    ensures var r := JoinExport(env, name);
      AllChars(r, IsNameChar) &&
      |r| >= |name| && r[|r| - |name|..] == name && AllChars(r[..|r| - |name|], IsEnvChar)
  {
    var r := JoinExport(env, name);
    if env != [] {
      var truncatedEnv := env[..EnvRoom(env, name)];
      assert r[..|r| - |name|] == truncatedEnv + "-";
      assert r[|r| - |name|..] == name;
    } else {
      assert r[..|r| - |name|] == [];
    }
  }

  /**
   * How much of the normalised environment is kept: all of it, or the room
   * `max(0, 255 - (1 + |name|))` that the separator and the name leave.
   */
  function EnvRoom(safeEnv: string, safeName: string): (n: nat)
    ensures n <= |safeEnv|
  {
    var available := if MaxExportNameLength - (1 + |safeName|) < 0 then 0 else MaxExportNameLength - (1 + |safeName|);
    if |safeEnv| > available then available else |safeEnv|
  }

  /** Collapsing a string that has no run of hyphens leaves it unchanged. */
  lemma {:induction false} CollapseFixpoint(s: string)
    requires NoDoubleHyphen(s)
    ensures CollapseHyphens(s) == s
  {
    if |s| > 1 {
      CollapseFixpoint(s[1..]);
      assert s == [s[0]] + s[1..];
    }
  }

  lemma ReplaceDisallowedFixpoint(s: string, allowed: char -> bool)
    requires AllChars(s, allowed)
    ensures ReplaceDisallowed(s, allowed) == s
  {
  }

  /** NormalizeEnv leaves exactly the normal environments unchanged. */
  lemma NormalizeEnvFixpoint(s: string)
    ensures NormalizeEnv(s) == s <==> IsNormalEnv(s)
  {
    if IsNormalEnv(s) {
      assert NormalizeEnv(s) == StripEdgeHyphens(CollapseHyphens(ReplaceDisallowed(JsTrim(s), IsEnvChar)));
      JsTrimNormal(s);
      ReplaceDisallowedFixpoint(s, IsEnvChar);
      CollapseFixpoint(s);
      StripEdgeHyphensFixpoint(s);
    }
  }

  lemma StripEdgeHyphensFixpoint(s: string)
    requires s == [] || (s[0] != '-' && s[|s| - 1] != '-')
    ensures StripEdgeHyphens(s) == s
  {
  }

  /** Trimming a normal environment does nothing: its ends are letters, digits or hyphens. */
  lemma JsTrimNormal(s: string)
    requires IsNormalEnv(s)
    ensures JsTrim(s) == s
  {
    if s != [] {
      assert IsEnvChar(s[0]) && IsEnvChar(s[|s| - 1]);
      assert !IsJsWhitespace(s[0]) && !IsJsWhitespace(s[|s| - 1]);
    }
    StripWithNoEdges(s, IsJsWhitespace);
  }

  /** Normalising an environment twice is the same as normalising it once. */
  lemma NormalizeEnvIdempotent(s: string)
    ensures NormalizeEnv(NormalizeEnv(s)) == NormalizeEnv(s)
  {
    NormalizeEnvFixpoint(NormalizeEnv(s));
  }

  /** NormalizeName leaves exactly the normal names unchanged. */
  lemma NormalizeNameFixpoint(s: string)
    ensures NormalizeName(s) == s <==> IsNormalName(s)
  {
    if IsNormalName(s) {
      assert ReplaceUnderscores(s) == s by {
        forall i | 0 <= i < |s| ensures s[i] != '_' { assert IsNameChar(s[i]); }
      }
      ReplaceDisallowedFixpoint(s, IsNameChar);
      CollapseFixpoint(s);
    }
  }

  /** Normalising a name twice is the same as normalising it once. */
  lemma NormalizeNameIdempotent(s: string)
    ensures NormalizeName(NormalizeName(s)) == NormalizeName(s)
  {
    NormalizeNameFixpoint(NormalizeName(s));
  }

  /**
   * With a non-empty environment the result is the environment cut to
   * `max(0, 254 - |name|)` characters, a hyphen and the name; it fits
   * CloudFormation's 255 characters exactly when the name has at most 254.
   */
  lemma ExportNameLength(stackEnv: string, baseName: string)
    requires NormalizeEnv(stackEnv) != []
    ensures var env, name, r := NormalizeEnv(stackEnv), NormalizeName(baseName), StackExportName(stackEnv, baseName);
      var keep := if |name| >= MaxExportNameLength - 1 then 0 else MaxExportNameLength - 1 - |name|;
      r == env[..if |env| < keep then |env| else keep] + "-" + name &&
      (|r| <= MaxExportNameLength <==> |name| <= MaxExportNameLength - 1)
  {
    JoinExportLength(NormalizeEnv(stackEnv), NormalizeName(baseName));
  }

  lemma JoinExportLength(env: string, name: string)
    requires env != []
    ensures var keep := if |name| >= MaxExportNameLength - 1 then 0 else MaxExportNameLength - 1 - |name|;
      var r := JoinExport(env, name);
      r == env[..if |env| < keep then |env| else keep] + "-" + name &&
      (|r| <= MaxExportNameLength <==> |name| <= MaxExportNameLength - 1)
  {
  }

  /** A name of 254 or more characters leaves no room for the environment, but the separator stays. */
  lemma LongNameDropsEnv(stackEnv: string, baseName: string)
    requires NormalizeEnv(stackEnv) != []
    requires |NormalizeName(baseName)| >= MaxExportNameLength - 1
    ensures StackExportName(stackEnv, baseName) == "-" + NormalizeName(baseName)
  {
    JoinExportLongName(NormalizeEnv(stackEnv), NormalizeName(baseName));
  }

  lemma JoinExportLongName(env: string, name: string)
    requires env != [] && |name| >= MaxExportNameLength - 1
    ensures JoinExport(env, name) == "-" + name
  {
    assert EnvRoom(env, name) == 0;
    assert env[..0] + "-" + name == "-" + name;
  }

  /** If the environment normalises to nothing, the export name is the normalised name alone. */
  lemma EmptyEnvGivesName(stackEnv: string, baseName: string)
    requires NormalizeEnv(stackEnv) == []
    ensures StackExportName(stackEnv, baseName) == NormalizeName(baseName)
  {
  }

  /** Names that differ only in `_` versus `-` share one export name, so export names need not be unique. */
  lemma UnderscoreAndHyphenCollide(stackEnv: string)
    ensures StackExportName(stackEnv, "API_URL") == StackExportName(stackEnv, "API-URL")
  {
    assert ReplaceUnderscores("API_URL") == ReplaceUnderscores("API-URL");
  }

  /** A name that starts with `_` yields a double hyphen after the separator. */
  lemma LeadingUnderscoreDoubleHyphen()
    ensures StackExportName("a", "_x") == "a--x"
  {
    assert ReplaceUnderscores("_x") == "-x";
    assert ReplaceDisallowed("-x", IsNameChar) == "-x";
    NormalizeNameFixpoint("-x");
    NormalizeEnvFixpoint("a");
  }

  /** The name API_URL normalises to API-URL: the underscore becomes a hyphen and case is kept. */
  lemma ApiUrlName()
    ensures NormalizeName("API_URL") == "API-URL"
  {
    assert ReplaceUnderscores("API_URL") == "API-URL" == ReplaceUnderscores("API-URL");
    assert NormalizeName("API_URL") == NormalizeName("API-URL");
    assert IsNormalName("API-URL");
    NormalizeNameFixpoint("API-URL");
  }

  /**
   * An environment of 300 `x` and the name API_URL give exactly 255
   * characters ending in `-API-URL`: case is kept, the environment is cut
   * to its first 247 characters.
   */
  lemma LongEnvTruncated()
    ensures var r := StackExportName(seq(300, _ => 'x'), "API_URL");
      |r| == MaxExportNameLength && EndsWith(r, "-API-URL") && r[..247] == seq(247, _ => 'x')
  {
    var env := seq(300, _ => 'x');
    XsNormal(300);
    NormalEnvExportName(env, "API_URL");
    ApiUrlName();
    assert EnvRoom(env, "API-URL") == 247;
    JoinExportCut(env, "API-URL", 247);
    assert env[..247] == seq(247, _ => 'x');
  }

  /** A run of `x` is a normal environment. */
  lemma XsNormal(n: nat)
    requires n > 0
    ensures IsNormalEnv(seq(n, _ => 'x'))
  {
    var env := seq(n, _ => 'x');
    assert '-' !in env;
    NoHyphenNoDouble(env);
    assert AllChars(env, IsEnvChar);
  }

  /** When the room left for the environment is `k`, the result starts with the first `k` characters of it. */
  lemma JoinExportCut(env: string, name: string, k: nat)
    requires env != [] && EnvRoom(env, name) == k
    ensures var r := JoinExport(env, name);
      |r| == k + 1 + |name| && EndsWith(r, "-" + name) && r[..k] == env[..k]
  {
    var r := JoinExport(env, name);
    assert r == env[..k] + ("-" + name);
    assert r[|r| - |"-" + name|..] == "-" + name;
  }

  /** With an environment that is already normal, the export name keeps it as given. */
  lemma NormalEnvExportName(env: string, baseName: string)
    requires IsNormalEnv(env)
    ensures StackExportName(env, baseName) == JoinExport(env, NormalizeName(baseName))
  {
    NormalizeEnvFixpoint(env);
  }

  /** The registry path `/{env}/{name}` that the SSM lookup reads; the environment is not sanitised. */
  function SsmPath(stackEnv: string, paramName: string): string
  {
    "/" + stackEnv + "/" + paramName
  }

  /** The keys of a dictionary given as its entries. */
  function KeysOf(entries: seq<(string, string)>): set<string>
  {
    set i | 0 <= i < |entries| :: entries[i].0
  }

  predicate DistinctKeys(entries: seq<(string, string)>)
  {
    forall i, j :: 0 <= i < j < |entries| ==> entries[i].0 != entries[j].0
  }

  /** One more entry adds its key. */
  lemma KeysOfStep(entries: seq<(string, string)>, n: nat)
    requires n < |entries|
    ensures KeysOf(entries[..n + 1]) == KeysOf(entries[..n]) + {entries[n].0}
  {
    assert forall i :: 0 <= i < n ==> entries[..n + 1][i] == entries[..n][i];
    assert entries[..n + 1][n] == entries[n];
  }

  /**
   * getSsmParameters: for every `[key, paramName]` entry, the value the SSM
   * lookup gives for `/{stackEnv}/{paramName}`, under the same key.
   */
  method GetSsmParameters(stackEnv: string, inputSsm: seq<(string, string)>, valueFromLookup: string -> string)
    returns (params: map<string, string>)
    requires DistinctKeys(inputSsm)
    ensures params.Keys == KeysOf(inputSsm)
    ensures forall i :: 0 <= i < |inputSsm| ==>
      params[inputSsm[i].0] == valueFromLookup(SsmPath(stackEnv, inputSsm[i].1))
  {
    params := map[];
    var n := 0;
    while n < |inputSsm|
      invariant 0 <= n <= |inputSsm|
      invariant params.Keys == KeysOf(inputSsm[..n])
      invariant forall i :: 0 <= i < n ==>
        params[inputSsm[i].0] == valueFromLookup(SsmPath(stackEnv, inputSsm[i].1))
    {
      var (key, paramName) := inputSsm[n];
      params := params[key := valueFromLookup(SsmPath(stackEnv, paramName))];
      KeysOfStep(inputSsm, n);
      n := n + 1;
    }
    assert inputSsm[..n] == inputSsm;
  }

  /**
   * getStackParameters: for every `[key, paramName]` entry, the imported value
   * of the export named `StackExportName(stackEnv, paramName)`, under the same key.
   */
  method GetStackParameters(stackEnv: string, importStackParam: seq<(string, string)>, importValue: string -> string)
    returns (params: map<string, string>)
    requires DistinctKeys(importStackParam)
    ensures params.Keys == KeysOf(importStackParam)
    ensures forall i :: 0 <= i < |importStackParam| ==>
      params[importStackParam[i].0] == importValue(StackExportName(stackEnv, importStackParam[i].1))
  {
    params := map[];
    var n := 0;
    while n < |importStackParam|
      invariant 0 <= n <= |importStackParam|
      invariant params.Keys == KeysOf(importStackParam[..n])
      invariant forall i :: 0 <= i < n ==>
        params[importStackParam[i].0] == importValue(StackExportName(stackEnv, importStackParam[i].1))
    {
      var (key, paramName) := importStackParam[n];
      var exportName := StackExportName(stackEnv, paramName);
      params := params[key := importValue(exportName)];
      KeysOfStep(importStackParam, n);
      n := n + 1;
    }
    assert importStackParam[..n] == importStackParam;
  }

  datatype ParameterTier = Standard | Advanced | IntelligentTiering

  /** A construct registered on a scope. */
  datatype Construct =
    | CfnOutput(id: string, exportName: string, value: string)
    | StringParameter(id: string, parameterName: string, stringValue: string, tier: ParameterTier)

  /** A CDK construct scope; `children` are the constructs registered on it, in order. */
  class Scope {
    var children: seq<Construct>

    constructor ()
      ensures children == []
    {
      children := [];
    }
  }

  /** The output createStackParameters declares for one `[key, value]` entry. */
  function StackOutput(stackEnv: string, entry: (string, string)): Construct
  {
    CfnOutput("Output-" + entry.0 + "-Env", StackExportName(stackEnv, entry.0), entry.1)
  }

  /** createParameter: registers a standard-tier SSM parameter named `paramName` and returns it. */
  method CreateParameter(scope: Scope, paramName: string, paramValue: string) returns (p: Construct)
    modifies scope
    ensures p == StringParameter("CreateParam-" + paramName, paramName, paramValue, Standard)
    ensures scope.children == old(scope.children) + [p]
  {
    p := StringParameter("CreateParam-" + paramName, paramName, paramValue, Standard);
    scope.children := scope.children + [p];
  }

  /** createStackParameters: one output per entry, appended in entry order, and nothing else. */
  method CreateStackParameters(scope: Scope, stackEnv: string, stackParams: seq<(string, string)>)
    modifies scope
    ensures |scope.children| == |old(scope.children)| + |stackParams|
    ensures scope.children[..|old(scope.children)|] == old(scope.children)
    ensures forall i :: 0 <= i < |stackParams| ==>
      scope.children[|old(scope.children)| + i] == StackOutput(stackEnv, stackParams[i])
    ensures scope.children == old(scope.children) + StackOutputs(stackEnv, stackParams)
  {
    var n := 0;
    while n < |stackParams|
      invariant 0 <= n <= |stackParams|
      invariant |scope.children| == |old(scope.children)| + n
      invariant scope.children[..|old(scope.children)|] == old(scope.children)
      invariant forall i :: 0 <= i < n ==>
        scope.children[|old(scope.children)| + i] == StackOutput(stackEnv, stackParams[i])
    {
      var (key, value) := stackParams[n];
      scope.children := scope.children + [CfnOutput("Output-" + key + "-Env", StackExportName(stackEnv, key), value)];
      n := n + 1;
    }
  }

  /** The outputs createStackParameters declares for `stackParams`, in entry order. */
  function StackOutputs(stackEnv: string, stackParams: seq<(string, string)>): (outs: seq<Construct>)
    ensures |outs| == |stackParams|
    ensures forall i :: 0 <= i < |stackParams| ==> outs[i] == StackOutput(stackEnv, stackParams[i])
  {
    seq(|stackParams|, i requires 0 <= i < |stackParams| => StackOutput(stackEnv, stackParams[i]))
  }

  /**
   * The exports a list of constructs publishes: export name to value, for
   * its outputs. CloudFormation refuses a stack that exports one name twice,
   * so the lemmas below only read it where the names are distinct.
   */
  function Exports(outs: seq<Construct>): map<string, string>
  {
    if outs == [] then map[]
    else
      var c := outs[|outs| - 1];
      var pre := Exports(outs[..|outs| - 1]);
      if c.CfnOutput? then pre[c.exportName := c.value] else pre
  }

  /** No two outputs share an export name. */
  predicate DistinctExportNames(outs: seq<Construct>)
  {
    forall a, b :: 0 <= a < b < |outs| && outs[a].CfnOutput? && outs[b].CfnOutput? ==>
      outs[a].exportName != outs[b].exportName
  }

  /** With distinct export names, each output's name is published with its own value. */
  lemma {:induction false} ExportsLookup(outs: seq<Construct>, k: nat)
    requires k < |outs| && outs[k].CfnOutput? && DistinctExportNames(outs)
    ensures outs[k].exportName in Exports(outs) && Exports(outs)[outs[k].exportName] == outs[k].value
  {
    var last := |outs| - 1;
    if k < last {
      var pre := outs[..last];
      assert pre[k] == outs[k];
      assert DistinctExportNames(pre) by {
        forall a, b | 0 <= a < b < |pre| && pre[a].CfnOutput? && pre[b].CfnOutput?
          ensures pre[a].exportName != pre[b].exportName
        {
          assert pre[a] == outs[a] && pre[b] == outs[b];
        }
      }
      ExportsLookup(pre, k);
    }
  }

  /**
   * Producer and consumer agree: when the produced keys have distinct export
   * names in `stackEnv` and a consumer stack in the same environment imports
   * from the exports createStackParameters published, the consumer's
   * `[key, paramName]` entry with `paramName` a produced key reads the value
   * the producer gave that key. Distinctness is needed: `API_URL` and
   * `API-URL` share an export name (`UnderscoreAndHyphenCollide`).
   */
  lemma ImportNameMatchesExport(stackEnv: string, produced: seq<(string, string)>, consumed: seq<(string, string)>,
                                i: nat, j: nat, importValue: string -> string)
    requires i < |produced| && j < |consumed| && consumed[j].1 == produced[i].0
    requires DistinctExportNames(StackOutputs(stackEnv, produced))
    requires forall name :: name in Exports(StackOutputs(stackEnv, produced)) ==>
      importValue(name) == Exports(StackOutputs(stackEnv, produced))[name]
    ensures importValue(StackExportName(stackEnv, consumed[j].1)) == produced[i].1
  {
    ExportsLookup(StackOutputs(stackEnv, produced), i);
  }
}
