/** The prompt registry of the RCA agent: prompt files are read once, stripped of their
    metadata header, cached, and rendered by placeholder substitution. */
module PromptRegistry {
  import opened Wrappers
  import opened Placeholders

  type PromptKey = (string, string)

  /** What reading a prompt path yields; a path that is not in the file system's map does
      not exist. */
  datatype File = Readable(raw: string) | Unreadable | NotUtf8

  /** NotUtf8Escapes is the decoding error, which is no OSError and so is not wrapped. */
  datatype LoadError = PromptNotFound(name: string, version: string) | PromptLoad | NotUtf8Escapes

  const SEPARATOR := "---\n"

  predicate SeparatorAt(raw: string, k: nat) {
    k + 4 <= |raw| && raw[k..k + 4] == SEPARATOR
  }

  function FirstSeparator(raw: string, from: nat): (r: Option<nat>)
    requires from <= |raw|
    ensures r.Some? ==> from <= r.value && SeparatorAt(raw, r.value)
    ensures forall k: nat | from <= k && (r.Some? ==> k < r.value) :: !SeparatorAt(raw, k)
    decreases |raw| - from
  {
    if SeparatorAt(raw, from) then Some(from)
    else if from == |raw| then None
    else FirstSeparator(raw, from + 1)
  }

  /** The prompt body: everything after the first separator line, or the whole file. */
  function Body(raw: string): string {
    match FirstSeparator(raw, 0)
    case None => raw
    case Some(k) => raw[k + 4..]
  }

  /** A header can be put on a body and stripped again exactly when the header holds no
      separator of its own; the body may hold any number of them. */
  lemma HeaderStripped(header: string, body: string)
    ensures Body(header + SEPARATOR + body) == body <==> forall k: nat :: !SeparatorAt(header, k)
  {
    var raw := header + SEPARATOR + body;
    assert SeparatorAt(raw, |header|);
    var first := FirstSeparator(raw, 0).value;
    forall k: nat | k < |header| ensures SeparatorAt(raw, k) <==> SeparatorAt(header, k) {
      if k + 4 <= |header| {
        assert raw[k..k + 4] == header[k..k + 4];
      } else {
        assert raw[k..k + 4][3] == '-';
      }
    }
    if first == |header| {
      assert raw[first + 4..] == body;
    }
  }

  lemma NoHeader(raw: string)
    ensures Body(raw) == raw <==> forall k: nat :: !SeparatorAt(raw, k)
  {
    assert FirstSeparator(raw, 0).Some? ==> |Body(raw)| < |raw|;
  }

  /** Three dashes end a line. */
  predicate RuleAt(raw: string, k: nat) {
    k + 4 <= |raw| && raw[k..k + 4] == "---\n"
  }

  ghost predicate FirstRule(raw: string, k: nat) {
    RuleAt(raw, k) && forall j: nat | j < k :: !RuleAt(raw, j)
  }

  /** The body is what follows the first such place, or the whole file when there is none. */
  lemma BodyExactly(raw: string)
    ensures forall k: nat | FirstRule(raw, k) :: Body(raw) == raw[k + 4..]
    ensures (forall k: nat :: !RuleAt(raw, k)) ==> Body(raw) == raw
  {
    var first := FirstSeparator(raw, 0);
    forall k: nat ensures RuleAt(raw, k) <==> SeparatorAt(raw, k) {}
    forall k: nat | FirstRule(raw, k) ensures first == Some(k) {
      assert SeparatorAt(raw, k);
    }
  }

  function Render(w: WordClass, template: string, variables: Option<Vars>): string {
    match variables
    case None => template
    case Some(vars) => Substitute(w, template, vars)
  }

  /** A prompt loaded without variables is the template; with variables each occurrence of a
      placeholder gives its value, or itself when it has none, each other character itself,
      and both between the renderings of the text before and after. */
  lemma RenderedExactly(w: WordClass, template: string, vars: Vars)
    ensures Render(w, template, None) == template
    ensures template == "" ==> Render(w, template, Some(vars)) == ""
    ensures forall i: nat, j: nat | Occurs(w, template, i, j) ::
              Render(w, template, Some(vars))
              == Render(w, template[..i], Some(vars))
                 + ((if template[i + 1..j] in vars then vars[template[i + 1..j]] else template[i..j + 1])
                    + Render(w, template[j + 1..], Some(vars)))
    ensures forall k: nat | k < |template| && forall i: nat, j: nat | Occurs(w, template, i, j) :: !(i <= k <= j) ::
              Render(w, template, Some(vars))
              == Render(w, template[..k], Some(vars)) + ([template[k]] + Render(w, template[k + 1..], Some(vars)))
  {
    forall i: nat, j: nat | Occurs(w, template, i, j)
      ensures Substitute(w, template, vars)
           == Substitute(w, template[..i], vars)
              + ((if template[i + 1..j] in vars then vars[template[i + 1..j]] else template[i..j + 1])
                 + Substitute(w, template[j + 1..], vars))
    {
      OccurrenceReplaced(w, template, vars, i, j);
    }
    forall k: nat | k < |template| && forall i: nat, j: nat | Occurs(w, template, i, j) :: !(i <= k <= j)
      ensures Substitute(w, template, vars)
           == Substitute(w, template[..k], vars) + ([template[k]] + Substitute(w, template[k + 1..], vars))
    {
      OtherTextKept(w, template, vars, k);
    }
  }

  class Registry {
    var cache: map<PromptKey, string>

    constructor ()
      ensures cache == map[]
    {
      cache := map[];
    }

    /** A cached prompt is served without looking at the disk; otherwise the file is read,
        its body cached and rendered, and a failed read leaves the cache as it was. */
    method Load(w: WordClass, disk: map<PromptKey, File>, name: string, version: string,
                variables: Option<Vars>)
      returns (r: Result<string, LoadError>)
      modifies this
      ensures (name, version) in old(cache) ==>
                cache == old(cache) && r == Ok(Render(w, old(cache)[(name, version)], variables))
      ensures (name, version) !in old(cache) ==>
                if (name, version) in disk && disk[(name, version)].Readable? then
                  && cache == old(cache)[(name, version) := Body(disk[(name, version)].raw)]
                  && r == Ok(Render(w, Body(disk[(name, version)].raw), variables))
                else
                  && cache == old(cache)
                  && r == Err(if (name, version) !in disk then PromptNotFound(name, version)
                              else if disk[(name, version)].Unreadable? then PromptLoad
                              else NotUtf8Escapes)
    {
      var key := (name, version);
      if key !in cache {
        var outcome := LoadIntoCache(disk, name, version);
        if outcome.Some? {
          return Err(outcome.value);
        }
      }
      r := Ok(Render(w, cache[key], variables));
    }

    method LoadIntoCache(disk: map<PromptKey, File>, name: string, version: string)
      returns (error: Option<LoadError>)
      modifies this
      ensures error == (if (name, version) !in disk then Some(PromptNotFound(name, version))
                        else match disk[(name, version)]
                             case Readable(_) => None
                             case Unreadable => Some(PromptLoad)
                             case NotUtf8 => Some(NotUtf8Escapes))
      ensures cache == if error.None? then old(cache)[(name, version) := Body(disk[(name, version)].raw)]
                       else old(cache)
    {
      var key := (name, version);
      if key !in disk {
        return Some(PromptNotFound(name, version));
      }
      match disk[key] {
        case Unreadable => return Some(PromptLoad);
        case NotUtf8 => return Some(NotUtf8Escapes);
        case Readable(raw) =>
          cache := cache[key := Body(raw)];
          return None;
      }
    }

    method InvalidateCache()
      modifies this
      ensures cache == map[]
    {
      cache := map[];
    }
  }
}
