/** `parse_image`: splitting a container image reference `name:tag`. */
module Images {
  import opened Wrappers
  import opened PyErrors
  import opened Strings

  datatype ImageRef = ImageRef(name: string, tag: string)

  /** Joins `parts` with `sep` between consecutive parts (Python's `sep.join(parts)`). */
  function Join(parts: seq<string>, sep: char): string
  {
    if |parts| == 0 then ""
    else if |parts| == 1 then parts[0]
    else parts[0] + [sep] + Join(parts[1..], sep)
  }

  /**
   * Python's `s.split(sep)` for a one-character separator: the maximal pieces between
   * separators, including empty ones, so there is always one more piece than separators.
   */
  function Split(s: string, sep: char): (parts: seq<string>)
    ensures |parts| == Count(s, sep) + 1
    ensures forall p :: p in parts ==> sep !in p
    ensures Join(parts, sep) == s
  {
    if s == [] then [""]
    else
      var rest := Split(s[1..], sep);
      if s[0] == sep then
        assert s == [sep] + s[1..];
        [""] + rest
      else
        var parts := [[s[0]] + rest[0]] + rest[1..];
        assert parts[1..] == rest[1..];
        assert s == [s[0]] + s[1..];
        parts
  }

  /**
   * `parse_image`: an image reference is accepted exactly when it holds one colon; the
   * two sides are the image name and the tag, and they rebuild the reference.
   */
  function ParseImage(image: string): (r: Result<ImageRef, Exception>)
    ensures r.Ok? <==> Count(image, ':') == 1
    ensures r.Ok? ==> r.value.name + ":" + r.value.tag == image
    ensures r.Ok? ==> ':' !in r.value.name && ':' !in r.value.tag
    ensures r.Err? ==> r.error == VersionerError(InvalidImageFormat(image))
  {
    var parts := Split(image, ':');
    if |parts| != 2 then Err(VersionerError(InvalidImageFormat(image)))
    else
      assert parts[1..] == [parts[1]];
      assert Join(parts, ':') == parts[0] + ":" + parts[1];
      Ok(ImageRef(parts[0], parts[1]))
  }

  /** Index of the first colon of `s`, or `|s|` when there is none. */
  function FirstColon(s: string): nat
  {
    if s == [] || s[0] == ':' then 0 else 1 + FirstColon(s[1..])
  }

  lemma {:induction false} FirstColonAfter(a: string, b: string)
    requires ':' !in a
    ensures FirstColon(a + ":" + b) == |a|
  {
    if a != [] {
      assert (a + ":" + b)[1..] == a[1..] + ":" + b;
      FirstColonAfter(a[1..], b);
    }
  }

  /** Two colon-free names split a reference at the same place. */
  lemma ColonSplitUnique(a: string, b: string, a': string, b': string)
    requires ':' !in a && ':' !in a'
    requires a + ":" + b == a' + ":" + b'
    ensures a == a' && b == b'
  {
    var s := a + ":" + b;
    FirstColonAfter(a, b);
    FirstColonAfter(a', b');
    assert a == s[..|a|];
    assert a' == (a' + ":" + b')[..|a'|];
    assert b == s[|a| + 1..];
    assert b' == (a' + ":" + b')[|a'| + 1..];
  }

  /** Writing `name:tag` from colon-free parts and parsing it back gives the same parts. */
  lemma ParseFormattedImage(name: string, tag: string)
    requires ':' !in name && ':' !in tag
    ensures ParseImage(name + ":" + tag) == Ok(ImageRef(name, tag))
  {
    CountZero(name, ':');
    CountZero(tag, ':');
    CountConcat(name, ":", ':');
    CountConcat(name + ":", tag, ':');
    var r := ParseImage(name + ":" + tag);
    ColonSplitUnique(name, tag, r.value.name, r.value.tag);
  }

  /** A reference with a second colon in it (a registry port, or a colon in the tag) is rejected. */
  lemma TwoColonsRejected(name: string, tag: string)
    requires ':' in tag
    ensures ParseImage(name + ":" + tag) == Err(VersionerError(InvalidImageFormat(name + ":" + tag)))
  {
    CountZero(tag, ':');
    CountConcat(name, ":", ':');
    CountConcat(name + ":", tag, ':');
  }

  /** The image reference of the unit test of `parse_image`, and the name it should split off. */
  const TestImage: string := "docker-io.dbc.dk/author-name-suggester-service:master-9"
  const TestImageName: string := "docker-io.dbc.dk/author-name-suggester-service"

  /** The reference used in the unit test splits into its name and `master-9`. */
  lemma ParseTestImage()
    ensures ParseImage(TestImage) == Ok(ImageRef(TestImageName, "master-9"))
  {
    var registry := "docker-io.dbc.dk/";
    var repository := "author-name-suggester-service";
    assert TestImageName == registry + repository;
    assert TestImage == TestImageName + ":" + "master-9";
    assert ':' !in registry && ':' !in repository;
    assert ':' !in TestImageName;
    ParseFormattedImage(TestImageName, "master-9");
  }
}
