/**
 * config/config.go, the cached methods as one goroutine sees them, and the auth configs for a list
 * of images.
 */
module AuthConfigs {
  import opened Results
  import opened AuthResolver
  import opened Lists

  /** auth.ParseImageRef: the registry of an image, if its reference parses. */
  type RegistryOf = string -> Option<string>

  datatype ImageError = ImageError(registry: string, cause: AuthError)

  const PARSE_ERROR := OtherError(0)

  class ConfigWithCache {
    const config: Config
    const helper: Helper
    var entries: Option<map<string, AuthConfig>>  // None until the cache is initialised

    constructor (config: Config, helper: Helper)
      ensures this.config == config && this.helper == helper && entries == None
    {
      this.config, this.helper, entries := config, helper, None;
    }

    /** Every entry is the resolver's answer. */
    ghost predicate Valid()
      reads this
    {
      entries.Some? ==> forall h :: h in entries.value ==> Resolve(config, helper, h) == Ok(entries.value[h])
    }

    function Cached(): map<string, AuthConfig>
      reads this
    {
      if entries.Some? then entries.value else map[]
    }

    method InitCache()
      modifies this
      ensures entries == Some(old(Cached()))
    {
      if entries.Some? {
        return;
      }
      entries := Some(map[]);
    }

    method ClearAuthCache()
      modifies this
      ensures Valid() && entries == Some(map[])
    {
      InitCache();
      entries := Some(map[]);
    }

    /** AuthConfigForHostname: the answer is the resolver's, and only a good one is kept. */
    method AuthConfigForHostname(hostname: string) returns (r: Answer)
      requires Valid()
      modifies this
      ensures Valid() && r == Resolve(config, helper, hostname)
      ensures entries == Some(if r.Ok? then old(Cached())[hostname := r.value] else old(Cached()))
    {
      InitCache();
      if hostname in entries.value {
        assert old(Cached())[hostname := entries.value[hostname]] == old(Cached());
        return Ok(entries.value[hostname]);
      }
      r := Resolve(config, helper, hostname);
      if r.Err? {
        return;
      }
      entries := Some(entries.value[hostname := r.value]);
    }

    /** AuthConfigForImage. */
    method AuthConfigForImage(image: string, parse: RegistryOf) returns (registry: string, r: Answer)
      requires Valid()
      modifies this
      ensures Valid()
      ensures (registry, r) == ForImage(config, helper, parse, image)
      ensures parse(image) == None ==> registry == "" && r == Err(PARSE_ERROR)
      ensures parse(image).Some? ==> registry == parse(image).value && AddressedTo(registry, Resolve(config, helper, registry), r)
    {
      var ref := parse(image);
      if ref.None? {
        return "", Err(PARSE_ERROR);
      }
      r := AuthConfigForHostname(ref.value);
      registry := ref.value;
      if r.Ok? {
        r := Ok(r.value.(serverAddress := registry));
      }
    }

    /** AuthConfigsForImages: missing credentials are skipped, any other error fails the call. */
    method AuthConfigsForImages(images: seq<string>, parse: RegistryOf)
      returns (r: Result<map<string, AuthConfig>, seq<ImageError>>)
      requires Valid()
      modifies this
      ensures Valid()
      ensures r.Err? ==> r.error != [] && r.error == Failures(config, helper, parse, images)
      ensures r.Ok? ==> Failures(config, helper, parse, images) == []
      ensures r.Ok? ==> forall registry :: registry in r.value <==>
        exists image :: image in images && parse(image) == Some(registry) && Resolve(config, helper, registry).Ok?
      ensures r.Ok? ==> forall registry :: registry in r.value ==>
        Resolve(config, helper, registry).Ok? &&
        r.value[registry] == Resolve(config, helper, registry).value.(serverAddress := registry)
    {
      var result: map<string, AuthConfig> := map[];
      var errs: seq<ImageError> := [];
      assert images[..0] == [];
      for i := 0 to |images|
        invariant Valid() && errs == Failures(config, helper, parse, images[..i])
        invariant Collected(config, helper, parse, images[..i], result)
      {
        var registry, authConfig := AuthConfigForImage(images[i], parse);
        assert images[..i + 1][..i] == images[..i];
        OneMoreImage(config, helper, parse, images[..i], images[i], result);
        assert images[..i] + [images[i]] == images[..i + 1];
        if authConfig.Err? {
          if authConfig.error != CredentialsNotFound {
            errs := errs + [ImageError(registry, authConfig.error)];
          }
          continue;
        }
        result := result[registry := authConfig.value.(serverAddress := registry)];
      }
      assert images[..|images|] == images;
      if |errs| > 0 {
        return Err(errs);
      }
      return Ok(result);
    }
  }

  /** The resolver's answer with the registry as the server address, or its error. */
  predicate AddressedTo(registry: string, a: Answer, r: Answer)
  {
    if a.Ok? then r == Ok(a.value.(serverAddress := registry)) else r == a
  }

  /** The registry and the answer for one image. */
  function ForImage(c: Config, helper: Helper, parse: RegistryOf, image: string): (string, Answer)
  {
    match parse(image)
    case None => ("", Err(PARSE_ERROR))
    case Some(registry) =>
      match Resolve(c, helper, registry)
      case Err(e) => (registry, Err(e))
      case Ok(a) => (registry, Ok(a.(serverAddress := registry)))
  }

  /** The errors of the images that have one, other than missing credentials. */
  function Failures(c: Config, helper: Helper, parse: RegistryOf, images: seq<string>): seq<ImageError>
  {
    if images == [] then []
    else
      var (registry, r) := ForImage(c, helper, parse, images[|images| - 1]);
      Failures(c, helper, parse, images[..|images| - 1]) +
      if r.Err? && r.error != CredentialsNotFound then [ImageError(registry, r.error)] else []
  }

  /** The error an image fails the call with: it does not parse, or its registry errs, but not for want of credentials. */
  function FailureOf(c: Config, helper: Helper, parse: RegistryOf, image: string): Option<ImageError>
  {
    match parse(image)
    case None => Some(ImageError("", PARSE_ERROR))
    case Some(registry) =>
      match Resolve(c, helper, registry)
      case Ok(_) => None
      case Err(e) => if e == CredentialsNotFound then None else Some(ImageError(registry, e))
  }

  function FailuresOf(c: Config, helper: Helper, parse: RegistryOf, images: seq<string>): seq<Option<ImageError>>
  {
    seq(|images|, i requires 0 <= i < |images| => FailureOf(c, helper, parse, images[i]))
  }

  /** The errors are those of exactly the images that fail the call, each with its own, in their order. */
  lemma {:induction false} FailuresAreExact(c: Config, helper: Helper, parse: RegistryOf, images: seq<string>) returns (at: seq<nat>)
    ensures Picks(FailuresOf(c, helper, parse, images), at, Failures(c, helper, parse, images))
    decreases |images|
  {
    if images == [] {
      at := [];
    } else {
      var last := |images| - 1;
      at := FailuresAreExact(c, helper, parse, images[..last]);
      at := PicksMore(FailuresOf(c, helper, parse, images[..last]), at, Failures(c, helper, parse, images[..last]),
                      FailureOf(c, helper, parse, images[last]));
      FailuresSnoc(c, helper, parse, images);
    }
  }

  lemma FailuresSnoc(c: Config, helper: Helper, parse: RegistryOf, images: seq<string>)
    requires images != []
    ensures var last := |images| - 1;
      var failure := FailureOf(c, helper, parse, images[last]);
      && FailuresOf(c, helper, parse, images) == FailuresOf(c, helper, parse, images[..last]) + [failure]
      && Failures(c, helper, parse, images) ==
         Failures(c, helper, parse, images[..last]) + if failure.Some? then [failure.value] else []
  {
  }

  /** `result` holds, under each registry of an image that resolves, the answer for it. */
  ghost predicate Collected(c: Config, helper: Helper, parse: RegistryOf, images: seq<string>, result: map<string, AuthConfig>)
  {
    && (forall registry :: registry in result <==>
         exists image :: image in images && parse(image) == Some(registry) && Resolve(c, helper, registry).Ok?)
    && (forall registry :: registry in result ==>
         Resolve(c, helper, registry).Ok? &&
         result[registry] == Resolve(c, helper, registry).value.(serverAddress := registry))
  }

  lemma OneMoreImage(c: Config, helper: Helper, parse: RegistryOf, images: seq<string>, image: string, result: map<string, AuthConfig>)
    requires Collected(c, helper, parse, images, result)
    ensures var (registry, r) := ForImage(c, helper, parse, image);
      Collected(c, helper, parse, images + [image],
                if r.Ok? then result[registry := r.value.(serverAddress := registry)] else result)
  {
    var (registry, r) := ForImage(c, helper, parse, image);
    var result' := if r.Ok? then result[registry := r.value.(serverAddress := registry)] else result;
    forall x
      ensures x in result' <==>
        exists i :: i in images + [image] && parse(i) == Some(x) && Resolve(c, helper, x).Ok?
    {
      if x in result' {
        if x in result {
          var i :| i in images && parse(i) == Some(x) && Resolve(c, helper, x).Ok?;
          assert i in images + [image];
        } else {
          assert image in images + [image];
        }
      }
    }
  }
}
