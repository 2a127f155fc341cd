/** Start-up configuration of the sync tool: the option defaults, the list
    of canned ACLs the ACL option accepts, and the argument checks that run
    before any bucket is contacted. Option parsing itself and the
    environment lookup are taken as already done: their outcome is a
    RawOptions value. */
module Config {

  import opened Maybe

  /** The six canned ACLs accepted by the ACL option, in declaration order. */
  const AmazonAcl: seq<string> := [
    "private", "public-read", "public-read-write",
    "authenticated-read", "bucket-owner-read", "bucket-owner-full-control"
  ]

  const DefaultAcl: string := "public-read"
  const DefaultThreads: int := 20
  const StandardStorage: string := "STANDARD"
  const ReducedStorage: string := "REDUCED_REDUNDANCY"

  const MissingSrc: string := "Missing SRC bucket"
  const MissingDst: string := "Missing DST bucket"
  const MissingKey: string := "Missing Amazon Key"
  const MissingSecret: string := "Missing Amazon Secret"

  /** What the command line and the environment supplied. `None` means the
      option was not given (or the environment variable is unset);
      `positional` holds the arguments left after the options. */
  datatype RawOptions = RawOptions(
    threads: Option<int>,
    prefix: Option<string>,
    acl: Option<string>,
    key: Option<string>,
    secret: Option<string>,
    envKey: Option<string>,
    envSecret: Option<string>,
    unsafe: bool,
    reduced: bool,
    create: bool,
    yes: bool,
    quiet: bool,
    positional: seq<string>
  )

  /** The validated, immutable configuration passed to every later phase. */
  datatype Settings = Settings(
    src: string,
    dst: string,
    key: string,
    secret: string,
    acl: string,
    threads: int,
    prefix: string,
    storageClass: string,
    unsafe: bool,
    create: bool,
    ask: bool,
    quiet: bool
  )

  /** Either the configuration to run with, or the process exit the
      checks force (status and a message naming what is wrong). */
  datatype Checked = Ok(settings: Settings) | Exit(code: int, message: string)

  /** One start-up check: whether it passes and what is printed when not. */
  datatype Check = Check(passes: bool, message: string)

  /** A command-line flag overrides the environment default, even when the
      flag's value is empty. */
  function Resolve(flag: Option<string>, env: Option<string>): Option<string>
  {
    if flag.Some? then flag else env
  }

  /** A credential is missing when it is nil or its string form is empty. */
  predicate Blank(v: Option<string>)
  {
    v.None? || v.value == ""
  }

  function OrElse<T>(v: Option<T>, default: T): T
  {
    if v.Some? then v.value else default
  }

  /** The checks in the order the tool performs them: the ACL value is
      refused by the option parser before the positional arguments and the
      credentials are looked at. That refusal is an uncaught parser error
      whose text (which also names the option) comes from the parser
      library; "invalid argument: " followed by the value stands in for it,
      and no usage text follows it. The other four messages are printed
      before the usage text. */
  function Checks(o: RawOptions): (cs: seq<Check>)
    ensures |cs| == 5
  {
    [ Check(o.acl.None? || o.acl.value in AmazonAcl,
            "invalid argument: " + OrElse(o.acl, "")),
      Check(|o.positional| >= 1, MissingSrc),
      Check(|o.positional| >= 2, MissingDst),
      Check(!Blank(Resolve(o.key, o.envKey)), MissingKey),
      Check(!Blank(Resolve(o.secret, o.envSecret)), MissingSecret) ]
  }

  /** Index of the first failing check, or |cs| when all pass. */
  function FirstFailing(cs: seq<Check>): (k: nat)
    ensures k <= |cs|
    ensures forall j :: 0 <= j < k ==> cs[j].passes
    ensures k < |cs| ==> !cs[k].passes
  {
    if cs == [] then 0
    else if !cs[0].passes then 0
    else 1 + FirstFailing(cs[1..])
  }

  /** The argument checks of the tool, written in the order the script runs
      them. Any failure exits with status 1; otherwise the options, with
      their defaults filled in, become the run's Settings. */
  function Validate(o: RawOptions): (r: Checked)
    ensures r.Exit? ==> r.code == 1
    ensures r.Ok? ==> r.settings.acl in AmazonAcl
    ensures r.Ok? ==> r.settings.key != "" && r.settings.secret != ""
    ensures r.Ok? ==> |o.positional| >= 2 && r.settings.src == o.positional[0]
                      && r.settings.dst == o.positional[1]
    ensures r.Ok? && o.acl.None? ==> r.settings.acl == DefaultAcl
    ensures r.Ok? && o.acl.Some? ==> r.settings.acl == o.acl.value
    ensures r.Ok? && o.threads.None? ==> r.settings.threads == DefaultThreads
    ensures r.Ok? && o.threads.Some? ==> r.settings.threads == o.threads.value
    ensures r.Ok? && o.prefix.None? ==> r.settings.prefix == ""
    ensures r.Ok? && o.prefix.Some? ==> r.settings.prefix == o.prefix.value
    ensures r.Ok? ==> Resolve(o.key, o.envKey) == Some(r.settings.key)
    ensures r.Ok? ==> Resolve(o.secret, o.envSecret) == Some(r.settings.secret)
    ensures r.Ok? ==> r.settings.unsafe == o.unsafe && r.settings.create == o.create
                      && r.settings.quiet == o.quiet
    ensures r.Ok? ==> r.settings.storageClass == (if o.reduced then ReducedStorage else StandardStorage)
    ensures r.Ok? ==> r.settings.ask == !o.yes
  {
    if o.acl.Some? && o.acl.value !in AmazonAcl then
      Exit(1, "invalid argument: " + o.acl.value)
    else if |o.positional| == 0 then
      Exit(1, MissingSrc)
    else if |o.positional| == 1 then
      Exit(1, MissingDst)
    else if Blank(Resolve(o.key, o.envKey)) then
      Exit(1, MissingKey)
    else if Blank(Resolve(o.secret, o.envSecret)) then
      Exit(1, MissingSecret)
    else
      Ok(Settings(
        src := o.positional[0],
        dst := o.positional[1],
        key := Resolve(o.key, o.envKey).value,
        secret := Resolve(o.secret, o.envSecret).value,
        acl := OrElse(o.acl, DefaultAcl),
        threads := OrElse(o.threads, DefaultThreads),
        prefix := OrElse(o.prefix, ""),
        storageClass := if o.reduced then ReducedStorage else StandardStorage,
        unsafe := o.unsafe,
        create := o.create,
        ask := !o.yes,
        quiet := o.quiet))
  }

  /** The checks run in order and the first one that fails decides the
      exit message: Validate exits exactly when some check fails, and then
      with the message of the earliest failing one. */
  lemma {:induction false} ValidateReportsFirstFailure(o: RawOptions)
    ensures Validate(o).Exit? <==> FirstFailing(Checks(o)) < |Checks(o)|
    ensures Validate(o).Exit? ==>
              Validate(o).message == Checks(o)[FirstFailing(Checks(o))].message
  {
    var cs := Checks(o);
    var c1, c2, c3, c4 := cs[1..], cs[2..], cs[3..], cs[4..];
    assert c1[1..] == c2 && c2[1..] == c3 && c3[1..] == c4 && c4[1..] == [];
    if !cs[0].passes {
      assert FirstFailing(cs) == 0;
    } else if !cs[1].passes {
      assert FirstFailing(cs) == 1 + FirstFailing(c1) == 1;
    } else if !cs[2].passes {
      assert FirstFailing(c1) == 1 + FirstFailing(c2) == 1;
    } else if !cs[3].passes {
      assert FirstFailing(c2) == 1 + FirstFailing(c3) == 1;
      assert FirstFailing(c1) == 2;
    } else if !cs[4].passes {
      assert FirstFailing(c3) == 1 + FirstFailing(c4) == 1;
      assert FirstFailing(c2) == 2;
      assert FirstFailing(c1) == 3;
    } else {
      assert FirstFailing(c4) == 1 + FirstFailing([]) == 1;
      assert FirstFailing(c3) == 2;
      assert FirstFailing(c2) == 3;
      assert FirstFailing(c1) == 4;
    }
  }

  /** A flag given with an empty value hides a non-empty environment
      credential: the run stops with "Missing Amazon Key". */
  lemma EmptyFlagHidesEnvironment(o: RawOptions)
    requires o.acl.None? && |o.positional| == 2
    requires o.key == Some("") && o.envKey.Some? && o.envKey.value != ""
    ensures Validate(o) == Exit(1, MissingKey)
  {
  }

  /** An empty SRC or DST name is not missing: only an absent positional
      argument is. */
  lemma EmptyBucketNameAccepted(o: RawOptions)
    requires o.acl.None? && o.positional == ["", ""]
    requires !Blank(Resolve(o.key, o.envKey)) && !Blank(Resolve(o.secret, o.envSecret))
    ensures Validate(o).Ok? && Validate(o).settings.src == ""
  {
  }
}
