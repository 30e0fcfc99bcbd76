/**
 * `set_image_tag`: rewrite the image tag of every Deployment in a multi-document
 * manifest, modelled on the documents after `yaml.safe_load_all`.
 */
module Versioner {
  import opened Wrappers
  import opened PyErrors
  import opened Strings
  import opened Yaml
  import opened Images

  /** `doc["spec"]["template"]["spec"]["containers"]` */
  const ContainersPath: Path := [Key("spec"), Key("template"), Key("spec"), Key("containers")]

  /** `containers[0]["image"]` below the container list. */
  const ImagePath: Path := ContainersPath + [Index(0), Key("image")]

  /** A (possibly) rewritten value and whether the rewrite changed a tag. */
  datatype Patched<T> = Patched(value: T, changed: bool)

  /**
   * How `set_image_tag` ends: with the rewritten documents, with
   * `VersionUnchangedException` (nothing to do, not an error), or with an exception.
   */
  datatype Outcome =
    | Updated(docs: seq<Value>)
    | VersionUnchanged
    | Raised(error: Exception)

  /** A dict whose `kind` is the string `Deployment`. */
  predicate IsDeployment(doc: Value)
  {
    doc.Mapping? && Subscript(doc, Key("kind")) == Ok(Str("Deployment"))
  }

  /** The `except IndexError` clause around the Deployment rewrite: re-raised as a VersionerError. */
  function ReraiseIndexError(e: Exception): Exception
  {
    if e == IndexError then VersionerError(ContainerIndexError) else e
  }

  /** The body of the `try` block: read the one container's image and rewrite its tag if it differs. */
  function PatchDeployment(doc: Value, newTag: string): Result<Patched<Value>, Exception>
  {
    match Get(doc, ContainersPath)
    case Err(e) => Err(e)
    case Ok(containers) =>
      match Len(containers)
      case Err(e) => Err(e)
      case Ok(n) =>
        if n > 1 then Err(VersionerError(TooManyContainers))
        else
          match Subscript(containers, Index(0))
          case Err(e) => Err(e)
          case Ok(first) =>
            match Subscript(first, Key("image"))
            case Err(e) => Err(e)
            case Ok(image) =>
              if !image.Str? then Err(AttributeError)  // `image.split` on a non-string
              else
                match ParseImage(image.text)
                case Err(e) => Err(e)
                case Ok(parsed) =>
                  if parsed.tag != newTag then
                    Ok(Patched(Put(doc, ImagePath, Str(parsed.name + ":" + newTag)), true))
                  else Ok(Patched(doc, false))
  }

  /** One iteration of the document loop. */
  function PatchDocument(doc: Value, newTag: string): Result<Patched<Value>, Exception>
  {
    match Contains(doc, "kind")
    case Err(e) => Err(e)
    case Ok(hasKind) =>
      if !hasKind then Ok(Patched(doc, false))
      else
        match Subscript(doc, Key("kind"))
        case Err(e) => Err(e)
        case Ok(kind) =>
          if kind != Str("Deployment") then Ok(Patched(doc, false))
          else
            match PatchDeployment(doc, newTag)
            case Err(e) => Err(ReraiseIndexError(e))
            case Ok(p) => Ok(p)
  }

  /** A `for` loop over documents: each step in order, the first exception ends it, `changed` accumulates. */
  function Fold(docs: seq<Value>, step: Value -> Result<Patched<Value>, Exception>): Result<Patched<seq<Value>>, Exception>
    decreases |docs|
  {
    if docs == [] then Ok(Patched([], false))
    else
      match Fold(docs[..|docs| - 1], step)
      case Err(e) => Err(e)
      case Ok(done) =>
        match step(docs[|docs| - 1])
        case Err(e) => Err(e)
        case Ok(p) => Ok(Patched(done.value + [p.value], done.changed || p.changed))
  }

  /** The document loop of `set_image_tag`. */
  function PatchAll(docs: seq<Value>, newTag: string): Result<Patched<seq<Value>>, Exception>
  {
    Fold(docs, doc => PatchDocument(doc, newTag))
  }

  /** What `set_image_tag` does once the file's documents are loaded. */
  function SetImageTagSpec(docs: seq<Value>, newTag: string): Outcome
  {
    match PatchAll(docs, newTag)
    case Err(e) => Raised(e)
    case Ok(p) => if p.changed then Updated(p.value) else VersionUnchanged
  }

  /** `set_image_tag` after the documents are loaded: the loop over `docs` with its `changed` flag. */
  method SetImageTag(docs: seq<Value>, newTag: string) returns (r: Outcome)
    ensures r == SetImageTagSpec(docs, newTag)
  {
    var out := docs;
    var changed := false;
    for i := 0 to |docs|
      invariant |out| == |docs| && out[i..] == docs[i..]
      invariant PatchAll(docs[..i], newTag) == Ok(Patched(out[..i], changed))
    {
      assert docs[..i + 1][..i] == docs[..i];
      ghost var before := out[..i];
      var step := PatchDocument(out[i], newTag);
      if step.Err? {
        FoldStopsAtFailure(docs, i, doc => PatchDocument(doc, newTag));
        return Raised(step.error);
      }
      out := out[i := step.value.value];
      changed := changed || step.value.changed;
      assert out[..i + 1] == before + [step.value.value];
    }
    assert docs[..|docs|] == docs && out[..|docs|] == out;
    if !changed {
      return VersionUnchanged;
    }
    return Updated(out);
  }

  /** An exception at document `i`, after the earlier ones went through, is the outcome of the whole loop. */
  lemma {:induction false} FoldStopsAtFailure(docs: seq<Value>, i: nat, step: Value -> Result<Patched<Value>, Exception>)
    requires i < |docs| && Fold(docs[..i], step).Ok? && step(docs[i]).Err?
    ensures Fold(docs, step) == Err(step(docs[i]).error)
    decreases |docs|
  {
    if i + 1 == |docs| {
      assert docs[..|docs| - 1] == docs[..i];
    } else {
      var front := docs[..|docs| - 1];
      assert front[..i] == docs[..i] && front[i] == docs[i];
      FoldStopsAtFailure(front, i, step);
    }
  }

  /** The loop ends in an exception iff some step raises one, and it is the first such step's. */
  lemma {:induction false} FoldFails(docs: seq<Value>, step: Value -> Result<Patched<Value>, Exception>)
    ensures Fold(docs, step).Err? <==> exists i :: 0 <= i < |docs| && step(docs[i]).Err?
    ensures Fold(docs, step).Err? ==>
      exists i :: 0 <= i < |docs| && step(docs[i]) == Err(Fold(docs, step).error)
        && forall j :: 0 <= j < i ==> step(docs[j]).Ok?
    decreases |docs|
  {
    if docs != [] {
      var front := docs[..|docs| - 1];
      FoldFails(front, step);
      assert forall i :: 0 <= i < |front| ==> front[i] == docs[i];
      if Fold(front, step).Err? {
        var i :| 0 <= i < |front| && step(front[i]) == Err(Fold(front, step).error)
          && forall j :: 0 <= j < i ==> step(front[j]).Ok?;
        assert step(docs[i]) == Err(Fold(docs, step).error);
      } else {
        assert forall i :: 0 <= i < |front| ==> step(docs[i]).Ok?;
      }
    }
  }

  /** When the loop gets through, its output is the steps' results in order, and `changed` says some step changed. */
  lemma {:induction false} FoldValues(docs: seq<Value>, step: Value -> Result<Patched<Value>, Exception>)
    requires Fold(docs, step).Ok?
    ensures |Fold(docs, step).value.value| == |docs|
    ensures forall i :: 0 <= i < |docs| ==>
      step(docs[i]).Ok? && Fold(docs, step).value.value[i] == step(docs[i]).value.value
    ensures Fold(docs, step).value.changed <==> exists i :: 0 <= i < |docs| && step(docs[i]).value.changed
    decreases |docs|
  {
    if docs != [] {
      var front := docs[..|docs| - 1];
      FoldValues(front, step);
      var done := Fold(front, step).value;
      var last := step(docs[|docs| - 1]).value;
      var all := Fold(docs, step).value;
      assert all.value == done.value + [last.value];
      assert forall i :: 0 <= i < |front| ==> front[i] == docs[i];
      if all.changed {
        if done.changed {
          var i :| 0 <= i < |front| && step(front[i]).value.changed;
          assert step(docs[i]).value.changed;
        } else {
          assert step(docs[|docs| - 1]).value.changed;
        }
      }
    }
  }

  /** When every step goes through, so does the loop. */
  lemma {:induction false} FoldSucceeds(docs: seq<Value>, step: Value -> Result<Patched<Value>, Exception>)
    requires forall i :: 0 <= i < |docs| ==> step(docs[i]).Ok?
    ensures Fold(docs, step).Ok?
  {
    FoldFails(docs, step);
  }

  /** The image of a Deployment's single container, split into name and tag, when it has exactly that shape. */
  function DeploymentImage(doc: Value): Option<ImageRef>
  {
    var containers := Get(doc, ContainersPath);
    if containers.Err? || !containers.value.Sequence? || |containers.value.items| != 1 then None
    else
      var image := Subscript(containers.value.items[0], Key("image"));
      if image.Err? || !image.value.Str? then None
      else
        var parsed := ParseImage(image.value.text);
        if parsed.Err? then None else Some(parsed.value)
  }

  /**
   * A document the loop gets past without an exception: a dict that is not a Deployment
   * or is a well-formed one, or a string or list in which `"kind" in doc` is false.
   */
  predicate Patchable(doc: Value)
  {
    match doc
    case Mapping(_) => !IsDeployment(doc) || DeploymentImage(doc).Some?
    case Str(text) => !IsSubstring("kind", text)
    case Sequence(items) => Str("kind") !in items
    case _ => false
  }

  /** A well-formed Deployment's image is addressable, and reading it gives `name:tag` back. */
  lemma DeploymentImageAddressable(doc: Value)
    requires DeploymentImage(doc).Some?
    ensures Addressable(doc, ImagePath)
    ensures Get(doc, ImagePath) == Ok(Str(DeploymentImage(doc).value.name + ":" + DeploymentImage(doc).value.tag))
  {
    var containers := Get(doc, ContainersPath).value;
    KeyPathAddressable(doc, ContainersPath);
    GetAddressable(doc, ContainersPath);
    var first := containers.items[0];
    assert Addressable(first, [Key("image")]);
    assert Addressable(containers, [Index(0), Key("image")]);
    AddressableConcat(doc, ContainersPath, [Index(0), Key("image")]);
    GetConcat(doc, ContainersPath, [Index(0), Key("image")]);
  }

  /** Documents other than dicts: a crash with TypeError when `"kind" in doc` fails or is true, else left alone. */
  lemma NonMappingDocument(doc: Value, newTag: string)
    requires !doc.Mapping?
    ensures doc.Null? || doc.Scalar? ==> PatchDocument(doc, newTag) == Err(TypeError)
    ensures Patchable(doc) ==> PatchDocument(doc, newTag) == Ok(Patched(doc, false))
    ensures !Patchable(doc) ==> PatchDocument(doc, newTag) == Err(TypeError)
  {
  }

  /** Dicts that are not Deployments, with or without `kind`, are passed through untouched. */
  lemma NonDeploymentKept(doc: Value, newTag: string)
    requires doc.Mapping? && !IsDeployment(doc)
    ensures PatchDocument(doc, newTag) == Ok(Patched(doc, false))
  {
  }

  /**
   * A Deployment is rewritten exactly when it has one container with a `name:tag`
   * image: the result holds `name:newTag` there and is changed iff the tag differed.
   */
  lemma DeploymentRewritten(doc: Value, newTag: string)
    requires IsDeployment(doc)
    ensures PatchDocument(doc, newTag).Ok? <==> DeploymentImage(doc).Some?
    ensures DeploymentImage(doc).Some? ==>
      var image := DeploymentImage(doc).value;
      && PatchDocument(doc, newTag).value.changed == (image.tag != newTag)
      && PatchDocument(doc, newTag).value.value == Put(doc, ImagePath, Str(image.name + ":" + newTag))
  {
    if DeploymentImage(doc).Some? {
      var image := DeploymentImage(doc).value;
      DeploymentImageAddressable(doc);
      if image.tag == newTag {
        PutCurrentValue(doc, ImagePath, Str(image.name + ":" + newTag));
      }
    }
  }

  /** A Deployment without the container path raises the KeyError or TypeError of the failed lookup, uncaught. */
  lemma MissingPathRaises(doc: Value, newTag: string)
    requires IsDeployment(doc) && Get(doc, ContainersPath).Err?
    ensures PatchDocument(doc, newTag) == Err(Get(doc, ContainersPath).error)
    ensures PatchDocument(doc, newTag) == Err(KeyError) || PatchDocument(doc, newTag) == Err(TypeError)
  {
    KeyPathErrors(doc, ContainersPath);
  }

  /** More than one container template is a VersionerError, whatever the tags. */
  lemma TooManyContainersRejected(doc: Value, newTag: string, containers: seq<Value>)
    requires IsDeployment(doc) && Get(doc, ContainersPath) == Ok(Sequence(containers)) && |containers| > 1
    ensures PatchDocument(doc, newTag) == Err(VersionerError(TooManyContainers))
  {
  }

  /** An empty container list raises IndexError, which is re-raised as a VersionerError. */
  lemma EmptyContainersRejected(doc: Value, newTag: string)
    requires IsDeployment(doc) && Get(doc, ContainersPath) == Ok(Sequence([]))
    ensures PatchDocument(doc, newTag) == Err(VersionerError(ContainerIndexError))
  {
  }

  /** A container without an `image` key raises an uncaught KeyError. */
  lemma MissingImageRaises(doc: Value, newTag: string, container: Value)
    requires IsDeployment(doc) && Get(doc, ContainersPath) == Ok(Sequence([container]))
    requires container.Mapping? && Subscript(container, Key("image")).Err?
    ensures PatchDocument(doc, newTag) == Err(KeyError)
  {
  }

  /** An image with no colon or more than one is a VersionerError naming the image. */
  lemma InvalidImageRejected(doc: Value, newTag: string, container: Value, image: string)
    requires IsDeployment(doc) && Get(doc, ContainersPath) == Ok(Sequence([container]))
    requires Subscript(container, Key("image")) == Ok(Str(image)) && Count(image, ':') != 1
    ensures PatchDocument(doc, newTag) == Err(VersionerError(InvalidImageFormat(image)))
  {
  }

  /** Reading a path of dict keys can only fail with KeyError (key absent) or TypeError (not a dict). */
  lemma {:induction false} KeyPathErrors(v: Value, path: Path)
    requires forall i :: 0 <= i < |path| ==> path[i].Key?
    ensures Get(v, path).Err? ==> Get(v, path).error in {KeyError, TypeError}
    decreases |path|
  {
    if path != [] && Subscript(v, path[0]).Ok? {
      assert forall i :: 0 <= i < |path[1..]| ==> path[1..][i] == path[i + 1];
      KeyPathErrors(Subscript(v, path[0]).value, path[1..]);
    }
  }

  /** A document gets through the loop body iff it is Patchable, whatever the new tag. */
  lemma PatchableIff(doc: Value, newTag: string)
    ensures PatchDocument(doc, newTag).Ok? <==> Patchable(doc)
  {
    if doc.Mapping? {
      if IsDeployment(doc) {
        DeploymentRewritten(doc, newTag);
      }
    }
  }

  /** `set_image_tag` raises iff some document cannot be got past; the exception is the first such document's. */
  lemma RaisesIffUnpatchable(docs: seq<Value>, newTag: string)
    ensures SetImageTagSpec(docs, newTag).Raised? <==> exists i :: 0 <= i < |docs| && !Patchable(docs[i])
    ensures SetImageTagSpec(docs, newTag).Raised? ==>
      exists i :: 0 <= i < |docs| && PatchDocument(docs[i], newTag) == Err(SetImageTagSpec(docs, newTag).error)
        && forall j :: 0 <= j < i ==> Patchable(docs[j])
  {
    FoldFails(docs, doc => PatchDocument(doc, newTag));
    forall i | 0 <= i < |docs| ensures PatchDocument(docs[i], newTag).Ok? <==> Patchable(docs[i]) {
      PatchableIff(docs[i], newTag);
    }
  }

  /**
   * After a successful `set_image_tag` the documents keep their number and order, every
   * Deployment's single image reads `name:newTag` with its old name and nothing else in it
   * changed, every other document is unchanged, and some Deployment had another tag.
   */
  lemma UpdatedRewritesEveryDeployment(docs: seq<Value>, newTag: string, out: seq<Value>)
    requires SetImageTagSpec(docs, newTag) == Updated(out)
    ensures |out| == |docs|
    ensures forall i :: 0 <= i < |docs| ==> Patchable(docs[i])
    ensures forall i :: 0 <= i < |docs| && !IsDeployment(docs[i]) ==> out[i] == docs[i]
    ensures forall i :: 0 <= i < |docs| && IsDeployment(docs[i]) ==>
      && DeploymentImage(docs[i]).Some?
      && out[i] == Put(docs[i], ImagePath, Str(DeploymentImage(docs[i]).value.name + ":" + newTag))
      && Get(out[i], ImagePath) == Ok(Str(DeploymentImage(docs[i]).value.name + ":" + newTag))
      && OnlyChangedAlong(docs[i], out[i], ImagePath)
    ensures exists i :: 0 <= i < |docs| && IsDeployment(docs[i]) && DeploymentImage(docs[i]).value.tag != newTag
  {
    var step := doc => PatchDocument(doc, newTag);
    FoldValues(docs, step);
    forall i | 0 <= i < |docs|
      ensures Patchable(docs[i])
      ensures !IsDeployment(docs[i]) ==> out[i] == docs[i] && !step(docs[i]).value.changed
      ensures IsDeployment(docs[i]) ==>
        && DeploymentImage(docs[i]).Some?
        && out[i] == Put(docs[i], ImagePath, Str(DeploymentImage(docs[i]).value.name + ":" + newTag))
        && Get(out[i], ImagePath) == Ok(Str(DeploymentImage(docs[i]).value.name + ":" + newTag))
        && OnlyChangedAlong(docs[i], out[i], ImagePath)
        && (step(docs[i]).value.changed <==> DeploymentImage(docs[i]).value.tag != newTag)
    {
      var doc := docs[i];
      PatchableIff(doc, newTag);
      if IsDeployment(doc) {
        DeploymentRewritten(doc, newTag);
        DeploymentImageAddressable(doc);
        var x := Str(DeploymentImage(doc).value.name + ":" + newTag);
        GetAfterPut(doc, ImagePath, x);
        PutOnlyChangesPath(doc, ImagePath, x);
      } else if doc.Mapping? {
        NonDeploymentKept(doc, newTag);
      } else {
        NonMappingDocument(doc, newTag);
      }
    }
    var i :| 0 <= i < |docs| && step(docs[i]).value.changed;
    assert IsDeployment(docs[i]);
  }

  /**
   * `VersionUnchangedException` is raised exactly when every document can be got past and
   * every Deployment already carries the new tag (so also when there is no Deployment).
   */
  lemma UnchangedIffTagsMatch(docs: seq<Value>, newTag: string)
    ensures SetImageTagSpec(docs, newTag) == VersionUnchanged <==>
      && (forall i :: 0 <= i < |docs| ==> Patchable(docs[i]))
      && (forall i :: 0 <= i < |docs| && IsDeployment(docs[i]) ==>
            DeploymentImage(docs[i]).Some? && DeploymentImage(docs[i]).value.tag == newTag)
  {
    var step := doc => PatchDocument(doc, newTag);
    forall i | 0 <= i < |docs|
      ensures step(docs[i]).Ok? <==> Patchable(docs[i])
      ensures step(docs[i]).Ok? ==>
        (step(docs[i]).value.changed <==>
           IsDeployment(docs[i]) && DeploymentImage(docs[i]).value.tag != newTag)
    {
      var doc := docs[i];
      PatchableIff(doc, newTag);
      if IsDeployment(doc) {
        DeploymentRewritten(doc, newTag);
      } else if doc.Mapping? {
        NonDeploymentKept(doc, newTag);
      } else {
        NonMappingDocument(doc, newTag);
      }
    }
    FoldFails(docs, step);
    if Fold(docs, step).Ok? {
      FoldValues(docs, step);
    }
  }

  /** A file without Deployments that can be got past is a no-op. */
  lemma NoDeploymentIsUnchanged(docs: seq<Value>, newTag: string)
    requires forall i :: 0 <= i < |docs| ==> Patchable(docs[i]) && !IsDeployment(docs[i])
    ensures SetImageTagSpec(docs, newTag) == VersionUnchanged
  {
    UnchangedIffTagsMatch(docs, newTag);
  }

  /** Writing below `spec` leaves `kind` alone, so a Deployment stays a Deployment. */
  lemma PutKeepsDeployment(doc: Value, path: Path, x: Value)
    requires IsDeployment(doc) && Addressable(doc, path) && path != [] && path[0] == Key("spec")
    ensures IsDeployment(Put(doc, path, x))
  {
    SiblingKeysUnchanged(doc, path, x, "kind");
  }

  /** After the rewrite the single container holds the new image. */
  lemma RewrittenContainers(doc: Value, x: Value)
    requires DeploymentImage(doc).Some?
    ensures var first := Get(doc, ContainersPath).value.items[0];
      && Get(Put(doc, ImagePath, x), ContainersPath) == Ok(Sequence([Put(first, [Key("image")], x)]))
      && Subscript(Put(first, [Key("image")], x), Key("image")) == Ok(x)
  {
    DeploymentImageAddressable(doc);
    GetPrefixAfterPut(doc, ContainersPath, [Index(0), Key("image")], x);
    var containers := Get(doc, ContainersPath).value;
    var first := containers.items[0];
    assert [Index(0), Key("image")][1..] == [Key("image")];
    assert Put(containers, [Index(0), Key("image")], x) == Sequence([Put(first, [Key("image")], x)]);
    GetAfterPut(first, [Key("image")], x);
  }

  /** The rewritten Deployment is still a Deployment, and its image now parses to the old name and the new tag. */
  lemma RewrittenDeploymentImage(doc: Value, newTag: string)
    requires IsDeployment(doc) && DeploymentImage(doc).Some? && ':' !in newTag
    ensures var name := DeploymentImage(doc).value.name;
      var rewritten := Put(doc, ImagePath, Str(name + ":" + newTag));
      IsDeployment(rewritten) && DeploymentImage(rewritten) == Some(ImageRef(name, newTag))
  {
    var name := DeploymentImage(doc).value.name;
    var x := Str(name + ":" + newTag);
    DeploymentImageAddressable(doc);
    PutKeepsDeployment(doc, ImagePath, x);
    RewrittenContainers(doc, x);
    ParseFormattedImage(name, newTag);
  }

  /**
   * Re-applying the same colon-free tag to a successful output raises
   * `VersionUnchangedException`: the rewrite is idempotent.
   */
  lemma ReapplyIsUnchanged(docs: seq<Value>, newTag: string, out: seq<Value>)
    requires SetImageTagSpec(docs, newTag) == Updated(out) && ':' !in newTag
    ensures SetImageTagSpec(out, newTag) == VersionUnchanged
  {
    UpdatedRewritesEveryDeployment(docs, newTag, out);
    forall i | 0 <= i < |out|
      ensures Patchable(out[i])
      ensures IsDeployment(out[i]) ==> DeploymentImage(out[i]).Some? && DeploymentImage(out[i]).value.tag == newTag
    {
      if IsDeployment(docs[i]) {
        RewrittenDeploymentImage(docs[i], newTag);
      }
    }
    UnchangedIffTagsMatch(out, newTag);
  }

  /** A container template running `image`. */
  function ContainerDoc(image: string): Value
  {
    Mapping([Entry("image", Str(image))])
  }

  /** The pod template of a Deployment with one container running `image`. */
  function PodTemplate(image: string): Value
  {
    Mapping([Entry("spec", Mapping([Entry("containers", Sequence([ContainerDoc(image)]))]))])
  }

  /** A minimal Deployment document whose one container runs `image`. */
  function DeploymentDoc(image: string): Value
  {
    Mapping([Entry("kind", Str("Deployment")), Entry("spec", Mapping([Entry("template", PodTemplate(image))]))])
  }

  /** A Service document, which the rewrite leaves alone. */
  function ServiceDoc(name: string): Value
  {
    Mapping([Entry("kind", Str("Service")), Entry("metadata", Mapping([Entry("name", Str(name))]))])
  }

  /** In a `kind`-then-`spec` dict, `spec` is found at the second entry. */
  lemma SpecIsSecondKey(entries: seq<Entry>)
    requires |entries| == 2 && entries[0].key == "kind" && entries[1].key == "spec"
    ensures KeyIndex(entries, "spec") == Some(1)
  {
    assert "kind"[0] != "spec"[0];
    assert KeyIndex(entries[1..], "spec") == Some(0);
  }

  lemma DeploymentDocContainers(image: string)
    ensures IsDeployment(DeploymentDoc(image))
    ensures Get(DeploymentDoc(image), ContainersPath) == Ok(Sequence([ContainerDoc(image)]))
  {
    var doc := DeploymentDoc(image);
    var p := ContainersPath;
    assert p[1..] == [Key("template"), Key("spec"), Key("containers")];
    assert p[1..][1..] == [Key("spec"), Key("containers")];
    assert p[1..][1..][1..] == [Key("containers")];
    SpecIsSecondKey(doc.entries);
    assert Subscript(doc, Key("spec")) == Ok(Mapping([Entry("template", PodTemplate(image))]));
  }

  lemma DeploymentDocImage(name: string, tag: string)
    requires ':' !in name && ':' !in tag
    ensures IsDeployment(DeploymentDoc(name + ":" + tag))
    ensures DeploymentImage(DeploymentDoc(name + ":" + tag)) == Some(ImageRef(name, tag))
  {
    DeploymentDocContainers(name + ":" + tag);
    ParseFormattedImage(name, tag);
  }

  lemma DeploymentDocRewrite(before: string, after: string)
    ensures Put(DeploymentDoc(before), ImagePath, Str(after)) == DeploymentDoc(after)
  {
    SpecIsSecondKey(DeploymentDoc(before).entries);
    var p := ImagePath;
    assert p == [Key("spec"), Key("template"), Key("spec"), Key("containers"), Index(0), Key("image")];
    var q := p[2..];
    assert p[1..][1..] == q;
    assert Put(ContainerDoc(before), [Key("image")], Str(after)) == ContainerDoc(after);
    assert [Index(0), Key("image")][1..] == [Key("image")];
    assert Put(Sequence([ContainerDoc(before)]), [Index(0), Key("image")], Str(after)) == Sequence([ContainerDoc(after)]);
    assert q[1..] == [Key("containers"), Index(0), Key("image")];
    assert q[1..][1..] == [Index(0), Key("image")];
    var containers := Mapping([Entry("containers", Sequence([ContainerDoc(before)]))]);
    assert Put(containers, q[1..], Str(after)) == Mapping([Entry("containers", Sequence([ContainerDoc(after)]))]);
    assert Put(PodTemplate(before), q, Str(after)) == PodTemplate(after);
    var spec := Mapping([Entry("template", PodTemplate(before))]);
    assert Put(spec, p[1..], Str(after)) == Mapping([Entry("template", PodTemplate(after))]);
  }

  /** One document's step in the examples below. */
  lemma DeploymentDocStep(name: string, oldTag: string, newTag: string)
    requires ':' !in name && ':' !in oldTag
    ensures PatchDocument(DeploymentDoc(name + ":" + oldTag), newTag)
      == Ok(Patched(DeploymentDoc(name + ":" + newTag), oldTag != newTag))
  {
    DeploymentDocImage(name, oldTag);
    DeploymentRewritten(DeploymentDoc(name + ":" + oldTag), newTag);
    DeploymentDocRewrite(name + ":" + oldTag, name + ":" + newTag);
  }

  /** A loop whose every step goes through yields exactly the steps' results. */
  lemma FoldMatches(docs: seq<Value>, step: Value -> Result<Patched<Value>, Exception>, out: seq<Value>)
    requires |out| == |docs|
    requires forall i :: 0 <= i < |docs| ==> step(docs[i]).Ok? && step(docs[i]).value.value == out[i]
    ensures Fold(docs, step).Ok? && Fold(docs, step).value.value == out
    ensures Fold(docs, step).value.changed <==> exists i :: 0 <= i < |docs| && step(docs[i]).value.changed
  {
    FoldSucceeds(docs, step);
    FoldValues(docs, step);
  }

  /**
   * Re-applying a tag that itself holds a colon does not give `VersionUnchangedException`:
   * the first run writes `name:a:b`, which the second run's `parse_image` rejects.
   */
  lemma ColonTagBreaksReapply(name: string, oldTag: string, newTag: string)
    requires ':' !in name && ':' !in oldTag && ':' in newTag
    ensures SetImageTagSpec([DeploymentDoc(name + ":" + oldTag)], newTag) == Updated([DeploymentDoc(name + ":" + newTag)])
    ensures SetImageTagSpec([DeploymentDoc(name + ":" + newTag)], newTag)
      == Raised(VersionerError(InvalidImageFormat(name + ":" + newTag)))
  {
    var step := doc => PatchDocument(doc, newTag);
    assert oldTag != newTag;
    DeploymentDocStep(name, oldTag, newTag);
    FoldMatches([DeploymentDoc(name + ":" + oldTag)], step, [DeploymentDoc(name + ":" + newTag)]);
    var image := name + ":" + newTag;
    var doc := DeploymentDoc(image);
    DeploymentDocContainers(image);
    TwoColonsRejected(name, newTag);
    InvalidImageRejected(doc, newTag, ContainerDoc(image), image);
    FoldStopsAtFailure([doc], 0, step);
  }

  /**
   * A file with a Deployment on an old tag, a Service and a Deployment already on the new
   * tag: both Deployments end up on the new tag, the Service is untouched, order is kept.
   */
  lemma MixedFileRewritten(docs: seq<Value>, first: string, second: string, oldTag: string, newTag: string, service: string)
    requires ':' !in first && ':' !in second && ':' !in oldTag && ':' !in newTag && oldTag != newTag
    requires |docs| == 3
    requires docs[0] == DeploymentDoc(first + ":" + oldTag)
    requires docs[1] == ServiceDoc(service)
    requires docs[2] == DeploymentDoc(second + ":" + newTag)
    ensures SetImageTagSpec(docs, newTag)
      == Updated([DeploymentDoc(first + ":" + newTag), ServiceDoc(service), DeploymentDoc(second + ":" + newTag)])
  {
    var out := [DeploymentDoc(first + ":" + newTag), ServiceDoc(service), DeploymentDoc(second + ":" + newTag)];
    MixedFileSteps(docs, first, second, oldTag, newTag, service, out);
    ThreeStepsOutcome(docs, newTag, out);
  }

  /** The three loop steps of the file above. */
  lemma MixedFileSteps(docs: seq<Value>, first: string, second: string, oldTag: string, newTag: string, service: string, out: seq<Value>)
    requires ':' !in first && ':' !in second && ':' !in oldTag && ':' !in newTag && oldTag != newTag
    requires |docs| == 3 && |out| == 3
    requires docs[0] == DeploymentDoc(first + ":" + oldTag) && out[0] == DeploymentDoc(first + ":" + newTag)
    requires docs[1] == ServiceDoc(service) && out[1] == ServiceDoc(service)
    requires docs[2] == DeploymentDoc(second + ":" + newTag) && out[2] == docs[2]
    ensures PatchDocument(docs[0], newTag) == Ok(Patched(out[0], true))
    ensures PatchDocument(docs[1], newTag) == Ok(Patched(out[1], false))
    ensures PatchDocument(docs[2], newTag) == Ok(Patched(out[2], false))
  {
    DeploymentDocStep(first, oldTag, newTag);
    DeploymentDocStep(second, newTag, newTag);
    ServiceDocStep(service, newTag);
  }

  /** Three documents whose steps go through, the first one changing a tag: the run returns the steps' results. */
  lemma ThreeStepsOutcome(docs: seq<Value>, newTag: string, out: seq<Value>)
    requires |docs| == 3 && |out| == 3
    requires PatchDocument(docs[0], newTag) == Ok(Patched(out[0], true))
    requires PatchDocument(docs[1], newTag) == Ok(Patched(out[1], false))
    requires PatchDocument(docs[2], newTag) == Ok(Patched(out[2], false))
    ensures SetImageTagSpec(docs, newTag) == Updated(out)
  {
    var step := doc => PatchDocument(doc, newTag);
    forall i | 0 <= i < |docs|
      ensures step(docs[i]).Ok? && step(docs[i]).value.value == out[i]
    {
      if i == 0 {
      } else if i == 1 {
      } else {
      }
    }
    FoldMatches(docs, step, out);
    assert step(docs[0]).value.changed;
  }

  /** The Service document goes through the loop body unchanged. */
  lemma ServiceDocStep(service: string, newTag: string)
    ensures PatchDocument(ServiceDoc(service), newTag) == Ok(Patched(ServiceDoc(service), false))
  {
    assert "Service"[0] != "Deployment"[0];
    NonDeploymentKept(ServiceDoc(service), newTag);
  }

  /** A Deployment already on the requested tag gives `VersionUnchangedException`. */
  lemma SameTagIsUnchanged(name: string, tag: string)
    requires ':' !in name && ':' !in tag
    ensures SetImageTagSpec([DeploymentDoc(name + ":" + tag)], tag) == VersionUnchanged
  {
    var docs := [DeploymentDoc(name + ":" + tag)];
    DeploymentDocStep(name, tag, tag);
    FoldMatches(docs, doc => PatchDocument(doc, tag), docs);
  }
}
