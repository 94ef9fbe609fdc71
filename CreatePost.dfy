/**
 * The submit path of the post editor (frontend/src/pages/CreatePost.jsx):
 * the required-field check, the upload of the picked files and the URL each
 * upload answers with, the markdown links appended to the content, the tag
 * list parsed from the comma-separated field, and the category check that
 * decides whether the post is created.
 */
module CreatePost {
  import opened Common

  // ---------------------------------------------------------------------
  // Tags

  /** `.filter((tag) => tag.length > 0)`: the non-empty strings of `s`. */
  function NonEmpty(s: seq<string>): (r: seq<string>)
    ensures |r| <= |s|
    ensures forall i :: 0 <= i < |r| ==> r[i] != []
  {
    if s == [] then []
    else (if s[0] != [] then [s[0]] else []) + NonEmpty(s[1..])
  }

  /** One string passes the filter exactly when it is non-empty. */
  lemma NonEmptyOne(x: string)
    ensures NonEmpty([x]) == if x == [] then [] else [x]
  {
    assert [x][1..] == [];
  }

  /** The filter keeps the order: filtering a concatenation filters each
      part; with NonEmptyOne this fixes the result of every list. */
  lemma {:induction false} NonEmptyConcat(a: seq<string>, b: seq<string>)
    ensures NonEmpty(a + b) == NonEmpty(a) + NonEmpty(b)
    decreases |a|
  {
    if a == [] {
      assert a + b == b;
    } else {
      var head := if a[0] != [] then [a[0]] else [];
      calc {
        NonEmpty(a + b);
        { assert (a + b)[0] == a[0] && (a + b)[1..] == a[1..] + b; }
        head + NonEmpty(a[1..] + b);
        { NonEmptyConcat(a[1..], b); }
        head + (NonEmpty(a[1..]) + NonEmpty(b));
        (head + NonEmpty(a[1..])) + NonEmpty(b);
      }
    }
  }

  /** A string is kept exactly when it is in the list and non-empty. */
  lemma {:induction false} NonEmptyMembers(s: seq<string>)
    ensures forall t :: t in NonEmpty(s) <==> t in s && t != []
    decreases |s|
  {
    if s != [] {
      NonEmptyMembers(s[1..]);
      assert s == [s[0]] + s[1..];
    }
  }

  /** A list without empty strings passes unchanged. */
  lemma {:induction false} NonEmptyAllKept(s: seq<string>)
    requires forall i :: 0 <= i < |s| ==> s[i] != []
    ensures NonEmpty(s) == s
    decreases |s|
  {
    if s != [] {
      NonEmptyAllKept(s[1..]);
      assert [s[0]] + s[1..] == s;
    }
  }

  /** `.map((tag) => tag.trim())` */
  function TrimAll(s: seq<string>): (r: seq<string>)
    ensures |r| == |s| && forall i :: 0 <= i < |s| ==> r[i] == Trim(s[i])
  {
    seq(|s|, i requires 0 <= i < |s| => Trim(s[i]))
  }

  /** A tag as it reaches the server: non-empty, without white space at
      either end, and without a comma. */
  predicate CleanTag(t: string)
  {
    t != [] && !IsJsSpace(t[0]) && !IsJsSpace(t[|t| - 1]) && ',' !in t
  }

  /** The tag list sent with a post: none for an empty field, otherwise the
      comma-separated pieces trimmed, with the empty ones dropped. */
  function ParseTags(field: string): (tags: seq<string>)
    ensures field == [] ==> tags == []
    ensures forall i :: 0 <= i < |tags| ==> CleanTag(tags[i])
  {
    if field == [] then []
    else
      var pieces := Split(field, ',');
      var trimmed := TrimAll(pieces);
      assert forall i :: 0 <= i < |trimmed| ==> trimmed[i] == [] || CleanTag(trimmed[i]) by {
        forall i | 0 <= i < |trimmed|
          ensures trimmed[i] == [] || CleanTag(trimmed[i])
        {
          TrimmedPieceClean(pieces[i]);
        }
      }
      NonEmptyClean(trimmed);
      NonEmpty(trimmed)
  }

  /** A comma-free piece trims to nothing or to a clean tag. */
  lemma TrimmedPieceClean(piece: string)
    requires ',' !in piece
    ensures Trim(piece) == [] || CleanTag(Trim(piece))
  {
    TrimIsInfix(piece);
  }

  /** The filter keeps only clean tags when every non-empty string is one. */
  lemma {:induction false} NonEmptyClean(s: seq<string>)
    requires forall i :: 0 <= i < |s| ==> s[i] == [] || CleanTag(s[i])
    ensures forall i :: 0 <= i < |NonEmpty(s)| ==> CleanTag(NonEmpty(s)[i])
    decreases |s|
  {
    if s != [] {
      assert forall i :: 0 <= i < |s[1..]| ==> s[1..][i] == s[i + 1];
      NonEmptyClean(s[1..]);
    }
  }

  /** The empty field takes the same path as any other: its one piece is
      blank and is dropped. */
  lemma ParseTagsOfSplit(field: string)
    ensures ParseTags(field) == NonEmpty(TrimAll(Split(field, ',')))
  {
    if field == [] {
      assert TrimAll([""]) == [""];
    }
  }

  /** A field without a comma gives its trimmed text as the one tag, or no
      tag when it is blank. */
  lemma ParseTagsOfPiece(piece: string)
    requires ',' !in piece
    ensures ParseTags(piece) == if Trim(piece) == [] then [] else [Trim(piece)]
  {
    ParseTagsOfSplit(piece);
    SplitOfPiece(piece, ',');
    assert TrimAll([piece]) == [Trim(piece)];
    NonEmptyOne(Trim(piece));
  }

  /** The tags of `piece,rest` are the tags of the piece followed by the
      tags of the rest: with ParseTagsOfPiece this fixes the tags of every
      field, padded pieces and empty pieces included. */
  lemma ParseTagsAfterPiece(piece: string, rest: string)
    requires ',' !in piece
    ensures ParseTags(piece + "," + rest) == ParseTags(piece) + ParseTags(rest)
  {
    var pieces := TrimAll(Split(rest, ','));
    calc {
      ParseTags(piece + "," + rest);
      { ParseTagsOfSplit(piece + "," + rest); }
      NonEmpty(TrimAll(Split(piece + "," + rest, ',')));
      { TrimmedAfterPiece(piece, rest); }
      NonEmpty([Trim(piece)] + pieces);
      { NonEmptyConcat([Trim(piece)], pieces); }
      NonEmpty([Trim(piece)]) + NonEmpty(pieces);
      { NonEmptyOne(Trim(piece)); ParseTagsOfPiece(piece); ParseTagsOfSplit(rest); }
      ParseTags(piece) + ParseTags(rest);
    }
  }

  /** The trimmed pieces of `piece,rest`: the piece's, then the rest's. */
  lemma TrimmedAfterPiece(piece: string, rest: string)
    requires ',' !in piece
    ensures TrimAll(Split(piece + "," + rest, ',')) == [Trim(piece)] + TrimAll(Split(rest, ','))
  {
    assert piece + "," + rest == piece + [','] + rest;
    SplitAfterPiece(piece, ',', rest);
    TrimAllCons(piece, Split(rest, ','));
  }

  lemma TrimAllCons(x: string, s: seq<string>)
    ensures TrimAll([x] + s) == [Trim(x)] + TrimAll(s)
  {
    var l, r := TrimAll([x] + s), [Trim(x)] + TrimAll(s);
    forall i | 0 <= i < |l|
      ensures l[i] == r[i]
    {
      if i > 0 {
        assert ([x] + s)[i] == s[i - 1];
      }
    }
  }

  /** The trimmed string is a slice of the original. */
  lemma TrimIsInfix(s: string)
    ensures forall c :: c in Trim(s) ==> c in s
  {
    var a, b := LeadingSpace(s), TrailingSpace(s);
    if a < |s| {
      forall c | c in Trim(s) ensures c in s {
        var k :| 0 <= k < |Trim(s)| && Trim(s)[k] == c;
        assert s[a + k] == c;
      }
    }
  }

  /** A list of clean tags (non-empty, not padded, comma-free) survives being
      typed into the field joined by commas: parsing gives it back. */
  lemma ParseJoinedTags(tags: seq<string>)
    requires tags != []
    requires forall i :: 0 <= i < |tags| ==> CleanTag(tags[i])
    ensures ParseTags(Join(tags, ",")) == tags
  {
    var field := Join(tags, ",");
    calc {
      ParseTags(field);
      { ParseTagsOfSplit(field); }
      NonEmpty(TrimAll(Split(field, ',')));
      { JoinedTagsSplitBack(tags); }
      NonEmpty(TrimAll(tags));
      { CleanTagsTrimmed(tags); }
      NonEmpty(tags);
      { NonEmptyAllKept(tags); }
      tags;
    }
  }

  lemma JoinedTagsSplitBack(tags: seq<string>)
    requires tags != []
    requires forall i :: 0 <= i < |tags| ==> CleanTag(tags[i])
    ensures Split(Join(tags, ","), ',') == tags
  {
    assert "," == [','];
    assert forall i :: 0 <= i < |tags| ==> ',' !in tags[i];
    SplitJoin(tags, ',');
  }

  lemma CleanTagsTrimmed(tags: seq<string>)
    requires forall i :: 0 <= i < |tags| ==> CleanTag(tags[i])
    ensures TrimAll(tags) == tags
    ensures forall i :: 0 <= i < |tags| ==> tags[i] != []
  {
    forall i | 0 <= i < |tags|
      ensures TrimAll(tags)[i] == tags[i]
    {
      TrimClean(tags[i]);
    }
  }

  lemma JoinStartsWithFirst(parts: seq<string>, sep: string)
    requires parts != []
    ensures |Join(parts, sep)| >= |parts[0]|
  {
  }

  lemma TrimClean(s: string)
    requires s != [] && !IsJsSpace(s[0]) && !IsJsSpace(s[|s| - 1])
    ensures Trim(s) == s
  {
    assert LeadingSpace(s) == 0;
    assert TrailingSpace(s) == 0;
  }

  // ---------------------------------------------------------------------
  // Uploads and links

  /** A picked file: its name and MIME type. */
  datatype Upload = Upload(name: string, kind: string)

  /** uploadImage's URL: a '/uploads/' path stays relative in development
      (the dev server proxies it) and is prefixed with the API's origin in
      production; any other URL is kept. */
  function ResolveUploadUrl(url: string, isDev: bool, origin: string): (r: string)
    ensures !StartsWith(url, "/uploads/") || isDev ==> r == url
    ensures StartsWith(url, "/uploads/") && !isDev ==> r == origin + url
  {
    if StartsWith(url, "/uploads/") && !isDev then origin + url else url
  }

  /** Every upload of a non-empty selection, in order; None when any fails
      (Promise.all rejects). */
  function UploadAll(files: seq<Upload>, upload: Upload -> Option<string>, isDev: bool, origin: string)
    : (r: Option<seq<string>>)
    ensures r.None? <==> exists i :: 0 <= i < |files| && upload(files[i]).None?
    ensures r.Some? ==>
      && |r.value| == |files|
      && forall i :: 0 <= i < |files| ==> r.value[i] == ResolveUploadUrl(upload(files[i]).value, isDev, origin)
  {
    if files == [] then Some([])
    else
      var first := upload(files[0]);
      var rest := UploadAll(files[1..], upload, isDev, origin);
      assert forall i :: 1 <= i < |files| ==> files[i] == files[1..][i - 1];
      if first.None? then None
      else if rest.None? then None
      else Some([ResolveUploadUrl(first.value, isDev, origin)] + rest.value)
  }

  /** The markdown for one upload: an image tag for 'image/' types, a link
      otherwise. */
  function FileLink(f: Upload, url: string): string
  {
    if StartsWith(f.kind, "image/") then "![" + f.name + "](" + url + ")"
    else "[" + f.name + "](" + url + ")"
  }

  /** One link per URL; the file named for a URL is the one at the URL's
      first position. */
  function Links(files: seq<Upload>, urls: seq<string>): (links: seq<string>)
    requires |urls| == |files|
    ensures |links| == |urls|
  {
    seq(|urls|, i requires 0 <= i < |urls| => FileLink(files[IndexOf(urls, urls[i])], urls[i]))
  }

  /** Distinct URLs: each upload is linked under its own file. */
  lemma LinksOfDistinctUrls(files: seq<Upload>, urls: seq<string>)
    requires |urls| == |files|
    requires forall i, j :: 0 <= i < j < |urls| ==> urls[i] != urls[j]
    ensures forall i :: 0 <= i < |urls| ==> Links(files, urls)[i] == FileLink(files[i], urls[i])
  {
    forall i | 0 <= i < |urls| ensures IndexOf(urls, urls[i]) == i {
    }
  }

  /** Repeated URLs: a later copy is linked under the first file, so both
      links are the same. */
  lemma LinksOfRepeatedUrl(files: seq<Upload>, urls: seq<string>, i: int, j: int)
    requires |urls| == |files|
    requires 0 <= i < j < |urls| && urls[i] == urls[j]
    requires forall k :: 0 <= k < i ==> urls[k] != urls[i]
    ensures Links(files, urls)[j] == FileLink(files[i], urls[i])
    ensures Links(files, urls)[i] == Links(files, urls)[j]
  {
    assert urls[i] !in urls[..i];
  }

  /** The content sent: the trimmed text, followed (after a blank line) by
      the uploads' links separated by blank lines, or the links alone when
      the text is blank. */
  function AssembleContent(text: string, files: seq<Upload>, urls: seq<string>): (content: string)
    requires |urls| == |files|
    ensures urls == [] ==> content == Trim(text)
    ensures urls != [] && Trim(text) != [] ==> content == Trim(text) + "\n\n" + Join(Links(files, urls), "\n\n")
    ensures urls != [] && Trim(text) == [] ==> content == Join(Links(files, urls), "\n\n")
    ensures StartsWith(content, Trim(text))
  {
    var trimmed := Trim(text);
    if urls == [] then trimmed
    else
      var fileUrls := Join(Links(files, urls), "\n\n");
      if fileUrls == [] then trimmed
      else if trimmed != [] then
        assert (trimmed + "\n\n" + fileUrls)[..|trimmed|] == trimmed;
        trimmed + "\n\n" + fileUrls
      else fileUrls
  }

  // ---------------------------------------------------------------------
  // handleSubmit

  /** The editor's form fields, all text. */
  datatype Form = Form(title: string, content: string, categoryId: string, tags: string)

  /** The body sent to createPost. */
  datatype PostData = PostData(title: string, content: string, categoryId: int, tags: seq<string>)

  datatype SubmitOutcome =
    | ErrorRequired    // nothing uploaded, nothing posted
    | UploadFailed     // an upload was refused; nothing posted
    | ErrorCategory    // uploads done, nothing posted
    | Posted(data: PostData)

  /** handleSubmit: the required fields first, then the uploads, then the
      category, which must parse to a positive number; only then is the
      post created. */
  function HandleSubmit(form: Form, files: seq<Upload>, upload: Upload -> Option<string>,
                        isDev: bool, origin: string): (o: SubmitOutcome)
    ensures o == ErrorRequired <==> form.title == [] || form.categoryId == []
    ensures o == UploadFailed <==>
      form.title != [] && form.categoryId != [] && UploadAll(files, upload, isDev, origin).None?
    ensures o == ErrorCategory <==>
      form.title != [] && form.categoryId != [] && UploadAll(files, upload, isDev, origin).Some?
      && (ParseInt10(form.categoryId).None? || ParseInt10(form.categoryId).value <= 0)
    ensures o.Posted? ==>
      var urls := UploadAll(files, upload, isDev, origin).value;
      && o.data.title == Trim(form.title)
      && o.data.categoryId == ParseInt10(form.categoryId).value && o.data.categoryId > 0
      && o.data.tags == ParseTags(form.tags)
      && |urls| == |files|
      && o.data.content == AssembleContent(form.content, files, urls)
  {
    if form.title == [] || form.categoryId == [] then ErrorRequired
    else
      match UploadAll(files, upload, isDev, origin)
      case None => UploadFailed
      case Some(urls) =>
        var categoryId := ParseInt10(form.categoryId);
        if categoryId.None? || categoryId.value <= 0 then ErrorCategory
        else Posted(PostData(Trim(form.title), AssembleContent(form.content, files, urls),
                             categoryId.value, ParseTags(form.tags)))
  }

  /** Without picked files nothing can fail to upload, and the content is the
      trimmed text. */
  lemma NoFilesNoLinks(form: Form, upload: Upload -> Option<string>, isDev: bool, origin: string)
    requires form.title != [] && form.categoryId != []
    ensures HandleSubmit(form, [], upload, isDev, origin) != UploadFailed
    ensures HandleSubmit(form, [], upload, isDev, origin).Posted? ==>
      HandleSubmit(form, [], upload, isDev, origin).data.content == Trim(form.content)
  {
  }
}
