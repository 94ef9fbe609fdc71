/**
 * The image picker of the post editor (frontend/src/components/ImageUpload.jsx):
 * the `{key}` message template filler, the guards and the append of
 * handleFileSelect, the removal of one picked file, and when the upload
 * area is shown.
 */
module ImageUpload {
  import opened Common

  // ---------------------------------------------------------------------
  // formatWithParams

  /** A character of the regular-expression class `\w`. */
  predicate IsWordChar(c: char)
  {
    ('a' <= c <= 'z') || ('A' <= c <= 'Z') || ('0' <= c <= '9') || c == '_'
  }

  /** The length of the run of word characters `s` starts with. */
  function WordRun(s: string): (n: nat)
    ensures n <= |s|
    ensures forall i :: 0 <= i < n ==> IsWordChar(s[i])
    ensures n < |s| ==> !IsWordChar(s[n])
  {
    if s != [] && IsWordChar(s[0]) then 1 + WordRun(s[1..]) else 0
  }

  /** `{word}` starts `t`: an opening brace, one or more word characters and
      a closing brace; the result is the length of the word. */
  function Placeholder(t: string): (n: nat)
    ensures n > 0 ==> 2 + n <= |t| && t[0] == '{' && t[n + 1] == '}'
    ensures n > 0 ==> forall i :: 1 <= i <= n ==> IsWordChar(t[i])
  {
    if t != [] && t[0] == '{' then
      var n := WordRun(t[1..]);
      if n > 0 && 1 + n < |t| && t[1 + n] == '}' then n else 0
    else 0
  }

  /** One left-to-right pass of `/\{(\w+)\}/g`: a placeholder whose word is a
      key of `params` becomes that value, any other placeholder stays as it
      was, and the text after a replacement is scanned on; the inserted
      values are never scanned. */
  function Substitute(t: string, params: map<string, string>): string
    decreases |t|
  {
    if t == [] then []
    else
      var n := Placeholder(t);
      if n > 0 then
        var key := t[1..n + 1];
        (if key in params then params[key] else "{" + key + "}") + Substitute(t[n + 2..], params)
      else [t[0]] + Substitute(t[1..], params)
  }

  /** formatWithParams: '' for a missing or empty template; a template
      without placeholders, or filled without parameters, comes back as it
      was. */
  function FormatWithParams(template: Option<string>, params: map<string, string>): (r: string)
    ensures template.None? || template.value == [] ==> r == ""
    ensures template.Some? && '{' !in template.value ==> r == template.value
    ensures template.Some? && params == map[] ==> r == template.value
  {
    if template.None? || template.value == [] then ""
    else
      var v := template.value;
      assert '{' !in v ==> Substitute(v, params) == v by {
        if '{' !in v { SubstituteNoBrace(v, params); }
      }
      assert params == map[] ==> Substitute(v, params) == v by {
        if params == map[] { SubstituteNoParams(v); }
      }
      Substitute(v, params)
  }

  /** The defining step: a template that starts with `{key}` for a key of
      `params` gives the key's value followed by the rest, filled in. */
  lemma SubstituteKnownKey(key: string, rest: string, params: map<string, string>)
    requires key != [] && forall i :: 0 <= i < |key| ==> IsWordChar(key[i])
    requires key in params
    ensures Substitute("{" + key + "}" + rest, params) == params[key] + Substitute(rest, params)
  {
    var t := "{" + key + "}" + rest;
    PlaceholderOfWord(key, rest);
    assert t[1..|key| + 1] == key;
    assert t[|key| + 2..] == rest;
  }

  /** `{key}` at the front of a text is recognised as a placeholder. */
  lemma PlaceholderOfWord(key: string, rest: string)
    requires key != [] && forall i :: 0 <= i < |key| ==> IsWordChar(key[i])
    ensures Placeholder("{" + key + "}" + rest) == |key|
  {
    var t := "{" + key + "}" + rest;
    assert t[1..] == key + ("}" + rest);
    WordRunOfWord(key, "}" + rest);
    assert t[1 + |key|] == '}';
  }

  /** A recognised placeholder splits its text into the brace, the word, the
      brace and the rest. */
  lemma PlaceholderSplit(t: string)
    requires Placeholder(t) > 0
    ensures var n := Placeholder(t);
      t == "{" + t[1..n + 1] + "}" + t[n + 2..]
  {
    var n := Placeholder(t);
    assert t == [t[0]] + t[1..n + 1] + [t[n + 1]] + t[n + 2..];
  }

  lemma {:induction false} WordRunOfWord(word: string, rest: string)
    requires forall i :: 0 <= i < |word| ==> IsWordChar(word[i])
    requires rest != [] && !IsWordChar(rest[0])
    ensures WordRun(word + rest) == |word|
    decreases |word|
  {
    if word != [] {
      assert (word + rest)[1..] == word[1..] + rest;
      WordRunOfWord(word[1..], rest);
    }
  }

  /** With no parameters every placeholder stays: the text comes back
      unchanged. */
  lemma {:induction false} SubstituteNoParams(t: string)
    ensures Substitute(t, map[]) == t
    decreases |t|
  {
    if t != [] {
      var n := Placeholder(t);
      if n > 0 {
        SubstituteNoParams(t[n + 2..]);
        PlaceholderSplit(t);
      } else {
        SubstituteNoParams(t[1..]);
      }
    }
  }

  /** Text without an opening brace is untouched, whatever the parameters. */
  lemma {:induction false} SubstituteNoBrace(t: string, params: map<string, string>)
    requires '{' !in t
    ensures Substitute(t, params) == t
    decreases |t|
  {
    if t != [] {
      assert t[0] != '{';
      SubstituteNoBrace(t[1..], params);
    }
  }

  /** A placeholder whose key is not given is kept as written and the scan
      goes on after it. */
  lemma SubstituteUnknownKey(key: string, rest: string, params: map<string, string>)
    requires key != [] && forall i :: 0 <= i < |key| ==> IsWordChar(key[i])
    requires key !in params
    ensures Substitute("{" + key + "}" + rest, params) == "{" + key + "}" + Substitute(rest, params)
  {
    var t := "{" + key + "}" + rest;
    PlaceholderOfWord(key, rest);
    assert t[1..|key| + 1] == key;
    assert t[|key| + 2..] == rest;
  }

  /** A brace that does not open a placeholder is copied and the scan moves
      on by one character. */
  lemma SubstituteStrayBrace(t: string, params: map<string, string>)
    requires t != [] && t[0] == '{' && Placeholder(t) == 0
    ensures Substitute(t, params) == "{" + Substitute(t[1..], params)
  {
  }

  /** Text without an opening brace passes through in front of whatever
      follows it. */
  lemma {:induction false} SubstituteAfterPlain(a: string, t: string, params: map<string, string>)
    requires '{' !in a
    ensures Substitute(a + t, params) == a + Substitute(t, params)
    decreases |a|
  {
    if a != [] {
      assert (a + t)[0] == a[0] != '{';
      assert Placeholder(a + t) == 0;
      assert (a + t)[1..] == a[1..] + t;
      assert '{' !in a[1..];
      calc {
        Substitute(a + t, params);
        [a[0]] + Substitute(a[1..] + t, params);
        { SubstituteAfterPlain(a[1..], t, params); }
        [a[0]] + (a[1..] + Substitute(t, params));
        { assert [a[0]] + a[1..] == a; }
        a + Substitute(t, params);
      }
    } else {
      assert a + t == t;
    }
  }

  /** A single pass: when the value of `key` is itself the placeholder of
      another given key, filling once leaves that placeholder in the text,
      and only a second fill replaces it. */
  lemma SinglePass(key: string, other: string, params: map<string, string>)
    requires key != [] && forall i :: 0 <= i < |key| ==> IsWordChar(key[i])
    requires other != [] && forall i :: 0 <= i < |other| ==> IsWordChar(other[i])
    requires key in params && other in params && params[key] == "{" + other + "}"
    ensures Substitute("{" + key + "}", params) == "{" + other + "}"
    ensures Substitute(Substitute("{" + key + "}", params), params) == params[other]
  {
    SubstituteKnownKey(key, "", params);
    SubstituteKnownKey(other, "", params);
    assert "{" + key + "}" + "" == "{" + key + "}";
    assert "{" + other + "}" + "" == "{" + other + "}";
  }

  // ---------------------------------------------------------------------
  // handleFileSelect, handleRemove

  /** A file the user picked. */
  datatype File = File(name: string, kind: string, size: int)

  /** An entry of the image list: the picked file, its preview URL, the URL
      it was uploaded to (null until the post is submitted), its name and
      MIME type. */
  datatype Entry = Entry(file: File, preview: string, url: Option<string>, name: string, kind: string)

  const MaxFileSize: int := 30 * 1024 * 1024

  datatype SelectOutcome =
    | AlertSelect
    | AlertMax(message: string)
    | AlertSize
    | Changed(images: seq<Entry>)

  /** The entry a newly picked file gets. */
  function NewEntry(f: File, preview: string): (e: Entry)
    ensures e.file == f && e.url.None? && e.name == f.name && e.kind == f.kind && e.preview == preview
  {
    Entry(f, preview, None, f.name, f.kind)
  }

  /** handleFileSelect: refuses an empty selection, then one that would take
      the list past `maxImages`, then one with a file above 30 MiB; otherwise
      hands on the list followed by one new entry per file, in order.
      `objectUrl` stands for URL.createObjectURL and `maxTemplate` for the
      translated 'image.alertMax' message. */
  method HandleFileSelect(images: seq<Entry>, files: seq<File>, maxImages: int,
                          maxTemplate: Option<string>, objectUrl: File -> string)
    returns (outcome: SelectOutcome)
    ensures outcome == AlertSelect <==> files == []
    ensures outcome.AlertMax? <==> files != [] && |images| + |files| > maxImages
    ensures outcome.AlertMax? ==>
      outcome.message == FormatWithParams(maxTemplate, map["max" := IntToString(maxImages)])
    ensures outcome == AlertSize <==>
      files != [] && |images| + |files| <= maxImages && exists i :: 0 <= i < |files| && files[i].size > MaxFileSize
    ensures outcome.Changed? ==>
      && |outcome.images| == |images| + |files| <= maxImages
      && outcome.images[..|images|] == images
      && forall i :: 0 <= i < |files| ==> outcome.images[|images| + i] == NewEntry(files[i], objectUrl(files[i]))
  {
    if |files| == 0 {
      return AlertSelect;
    }
    if |images| + |files| > maxImages {
      return AlertMax(FormatWithParams(maxTemplate, map["max" := IntToString(maxImages)]));
    }
    var oversized := Oversized(files);
    if oversized != [] {
      return AlertSize;
    }
    var newFiles: seq<Entry> := [];
    for i := 0 to |files|
      invariant |newFiles| == i
      invariant forall k :: 0 <= k < i ==> newFiles[k] == NewEntry(files[k], objectUrl(files[k]))
    {
      newFiles := newFiles + [NewEntry(files[i], objectUrl(files[i]))];
    }
    outcome := Changed(images + newFiles);
    assert outcome.images[..|images|] == images;
  }

  /** `files.filter(file => file.size > 30 * 1024 * 1024)` */
  function Oversized(files: seq<File>): (r: seq<File>)
    ensures forall k :: 0 <= k < |r| ==> r[k] in files && r[k].size > MaxFileSize
    ensures r == [] <==> forall i :: 0 <= i < |files| ==> files[i].size <= MaxFileSize
  {
    if files == [] then []
    else
      var rest := Oversized(files[1..]);
      assert forall i :: 1 <= i < |files| ==> files[i] == files[1..][i - 1];
      if files[0].size > MaxFileSize then [files[0]] + rest else rest
  }

  /** handleRemove: `images.filter((_, i) => i !== index)`. */
  function RemoveAt<T>(images: seq<T>, index: int): (r: seq<T>)
    ensures 0 <= index < |images| ==> r == images[..index] + images[index + 1..]
    ensures !(0 <= index < |images|) ==> r == images
    decreases |images|
  {
    if images == [] then []
    else if index == 0 then images[1..]
    else [images[0]] + RemoveAt(images[1..], index - 1)
  }

  /** Removing keeps every other entry, in order, and shortens the list by
      one exactly when the index is in range. */
  lemma RemoveKeepsOthers<T>(images: seq<T>, index: int)
    requires 0 <= index < |images|
    ensures |RemoveAt(images, index)| == |images| - 1
    ensures forall i :: 0 <= i < |images| - 1 ==>
      RemoveAt(images, index)[i] == images[if i < index then i else i + 1]
  {
  }

  /** The upload area is shown while fewer than `maxImages` files are picked. */
  predicate ShowUploadArea(images: seq<Entry>, maxImages: int)
  {
    |images| < maxImages
  }

  /** After a successful selection that fills the list up the upload area
      is hidden, and removing an entry shows it again. */
  lemma UploadAreaAfterChanges(images: seq<Entry>, maxImages: int, index: int)
    requires |images| == maxImages && 0 <= index < |images|
    ensures !ShowUploadArea(images, maxImages)
    ensures ShowUploadArea(RemoveAt(images, index), maxImages)
  {
  }
}
