/**
 * The post card of the feed (frontend/src/components/PostCard.jsx): the
 * title an audio post shows (the file name taken from its URL), the publish
 * date text per language, the date-library locale, the resolution of media
 * URLs against the API origin, the three-line text preview, and the like
 * button's guard.
 */
module PostCard {
  import opened Common
  import CreatePost

  // ---------------------------------------------------------------------
  // getFilenameFromUrl

  /** `filename.replace(/\.[^/.]+$/, '')`: drops a final '.ext' whose ext is
      non-empty and holds neither '.' nor '/'. */
  function StripExtension(f: string): (r: string)
    ensures '.' !in f ==> r == f
    ensures r != f ==>
      var ext := AfterLast(f, '.');
      && f == r + "." + ext && ext != [] && '/' !in ext
  {
    var ext := AfterLast(f, '.');
    if '.' in f && ext != [] && '/' !in ext then
      var r := f[..|f| - |ext| - 1];
      assert f == r + "." + ext;
      r
    else f
  }

  /** A name followed by an extension loses exactly the extension, even when
      the name itself holds dots. */
  lemma StripExtensionOf(name: string, ext: string)
    requires ext != [] && '.' !in ext && '/' !in ext
    ensures StripExtension(name + "." + ext) == name
  {
    var f := name + "." + ext;
    assert f == name + ['.'] + ext;
    AfterLastOf(name, '.', ext);
    assert f[..|f| - |ext| - 1] == name;
  }

  /** An extension that holds a '/' is not one: the name stays whole. */
  lemma StripExtensionKeepsPath(f: string)
    requires '/' in AfterLast(f, '.')
    ensures StripExtension(f) == f
  {
  }

  /** `url.split('?')[0].split('#')[0]`: the URL without query and fragment. */
  function CleanUrl(url: string): (r: string)
    ensures r == BeforeFirst(BeforeFirst(url, '?'), '#')
  {
    var beforeQuery := Split(url, '?')[0];
    FirstOfSplit(url, '?');
    FirstOfSplit(beforeQuery, '#');
    Split(beforeQuery, '#')[0]
  }

  /** `path.split('/').pop()`: the last path segment. */
  function LastSegment(path: string): (r: string)
    ensures r == AfterLast(path, '/')
  {
    var segments := Split(path, '/');
    LastOfSplit(path, '/');
    segments[|segments| - 1]
  }

  /** getFilenameFromUrl: the last path segment of the URL without query and
      fragment, decoded (`decode` stands for decodeURIComponent), without its
      extension. */
  function GetFilenameFromUrl(url: string, decode: string -> string): (r: string)
    ensures r == StripExtension(decode(AfterLast(BeforeFirst(BeforeFirst(url, '?'), '#'), '/')))
  {
    StripExtension(decode(LastSegment(CleanUrl(url))))
  }

  lemma NotInPieces(a: string, c: char, b: string, x: char)
    requires x != c && x !in a && x !in b
    ensures x !in a + [c] + b
  {
    var s := a + [c] + b;
    forall k | 0 <= k < |s| ensures s[k] != x {
      if k < |a| { assert s[k] == a[k]; }
      else if k > |a| { assert s[k] == b[k - |a| - 1]; }
    }
  }

  /** A path without query or fragment ends in the file after its last '/'. */
  lemma UploadPathSegment(dir: string, file: string)
    requires '?' !in dir && '#' !in dir && '?' !in file && '#' !in file && '/' !in file
    ensures AfterLast(BeforeFirst(BeforeFirst(dir + "/" + file, '?'), '#'), '/') == file
  {
    var path := dir + ['/'] + file;
    assert path == dir + "/" + file;
    NotInPieces(dir, '/', file, '?');
    NotInPieces(dir, '/', file, '#');
    AfterLastOf(dir, '/', file);
  }

  /** For an upload path whose file name decoding leaves alone, the title is
      the file's own name without its extension. */
  lemma FilenameOfUploadPath(dir: string, name: string, ext: string, decode: string -> string)
    requires '?' !in dir && '#' !in dir
    requires '?' !in name && '#' !in name && '/' !in name
    requires ext != [] && '.' !in ext && '/' !in ext && '?' !in ext && '#' !in ext
    requires decode(name + "." + ext) == name + "." + ext
    ensures GetFilenameFromUrl(dir + "/" + name + "." + ext, decode) == name
  {
    var file := name + "." + ext;
    var url := dir + "/" + name + "." + ext;
    assert url == dir + "/" + file;
    assert '?' !in file && '#' !in file && '/' !in file by {
      assert file == name + ['.'] + ext;
      NotInPieces(name, '.', ext, '?');
      NotInPieces(name, '.', ext, '#');
      NotInPieces(name, '.', ext, '/');
    }
    calc {
      GetFilenameFromUrl(url, decode);
      StripExtension(decode(AfterLast(BeforeFirst(BeforeFirst(url, '?'), '#'), '/')));
      { UploadPathSegment(dir, file); }
      StripExtension(decode(file));
      { StripExtensionOf(name, ext); }
      name;
    }
  }

  /** A query after the path does not change the title. */
  lemma FilenameIgnoresQuery(path: string, query: string, decode: string -> string)
    requires '?' !in path
    ensures GetFilenameFromUrl(path + "?" + query, decode) == GetFilenameFromUrl(path, decode)
  {
    assert path + "?" + query == path + ['?'] + query;
    BeforeFirstOf(path, '?', query);
  }

  // ---------------------------------------------------------------------
  // formatPublishDate, getDateLocale

  /** The post's createdAt as `new Date` reads it: absent or empty, not a
      date, or the local calendar day it denotes. */
  datatype DateInput = NoDate | InvalidDate | Calendar(year: int, month: int, day: int)

  /** What a JavaScript Date can report: a month 1-12 and a day 1-31. */
  predicate WellFormed(d: DateInput)
  {
    d.Calendar? ==> 1 <= d.month <= 12 && 1 <= d.day <= 31
  }

  const MonthNames: seq<string> :=
    ["Jan", "Feb", "Mar", "Apr", "May", "Jun", "Jul", "Aug", "Sep", "Oct", "Nov", "Dec"]

  /** The languages whose dates read year, month, day with CJK units. */
  predicate CjkDates(language: string)
  {
    language == "zh" || language == "ja"
  }

  /** `${year}年${month}月${day}日` */
  function CjkDate(year: int, month: int, day: int): string
  {
    IntToString(year) + "年" + IntToString(month) + "月" + IntToString(day) + "日"
  }

  /** `${monthNames[month - 1]} ${day}, ${year}` */
  function EnglishDate(year: int, month: int, day: int): string
    requires 1 <= month <= 12
  {
    MonthNames[month - 1] + " " + IntToString(day) + ", " + IntToString(year)
  }

  /** formatPublishDate: '' without a valid date; the year-month-day form for
      Chinese and Japanese; the English form otherwise. */
  function FormatPublishDate(date: DateInput, language: string): (r: string)
    requires WellFormed(date)
    ensures r == "" <==> !date.Calendar?
    ensures date.Calendar? && CjkDates(language) ==> r == CjkDate(date.year, date.month, date.day)
    ensures date.Calendar? && !CjkDates(language) ==> r == EnglishDate(date.year, date.month, date.day)
  {
    match date
    case Calendar(year, month, day) =>
      if language == "zh" then CjkDate(year, month, day)
      else if language == "ja" then CjkDate(year, month, day)
      else EnglishDate(year, month, day)
    case _ => ""
  }

  lemma NumberHasNo(i: int, c: char)
    requires c != '-' && !IsDigit(c)
    ensures c !in IntToString(i)
  {
  }

  lemma MonthNamesDistinct(m1: int, m2: int)
    requires 1 <= m1 <= 12 && 1 <= m2 <= 12 && MonthNames[m1 - 1] == MonthNames[m2 - 1]
    ensures m1 == m2
  {
  }

  /** A number followed by a character that no number holds can be read
      back from the front of a text. */
  lemma CutNumber(i1: int, rest1: string, i2: int, rest2: string, c: char)
    requires c != '-' && !IsDigit(c)
    requires NumberThen(i1, c, rest1) == NumberThen(i2, c, rest2)
    ensures i1 == i2 && rest1 == rest2
  {
    NumberHasNo(i1, c);
    NumberHasNo(i2, c);
    CutAtFirst(IntToString(i1), rest1, IntToString(i2), rest2, c);
    IntToStringInjective(i1, i2);
  }

  /** A number, a closing character, and what follows. */
  function NumberThen(i: int, c: char, rest: string): string
  {
    IntToString(i) + [c] + rest
  }

  lemma CjkDatePieces(y: int, m: int, d: int)
    ensures CjkDate(y, m, d) == NumberThen(y, '年', NumberThen(m, '月', NumberThen(d, '日', [])))
  {
    var ys, ms, ds := IntToString(y), IntToString(m), IntToString(d);
    assert ds + "日" == NumberThen(d, '日', []);
    assert ms + "月" + ds + "日" == NumberThen(m, '月', ds + "日");
    assert ys + "年" + ms + "月" + ds + "日" == NumberThen(y, '年', ms + "月" + ds + "日");
  }

  /** The year-month-day text identifies the day. */
  lemma CjkDateInjective(y1: int, m1: int, d1: int, y2: int, m2: int, d2: int)
    requires CjkDate(y1, m1, d1) == CjkDate(y2, m2, d2)
    ensures y1 == y2 && m1 == m2 && d1 == d2
  {
    CjkDatePieces(y1, m1, d1);
    CjkDatePieces(y2, m2, d2);
    CutNumber(y1, NumberThen(m1, '月', NumberThen(d1, '日', [])), y2, NumberThen(m2, '月', NumberThen(d2, '日', [])), '年');
    CutNumber(m1, NumberThen(d1, '日', []), m2, NumberThen(d2, '日', []), '月');
    CutNumber(d1, [], d2, [], '日');
  }

  lemma MonthNameLength(m: int)
    requires 1 <= m <= 12
    ensures |MonthNames[m - 1]| == 3
  {
  }

  lemma EnglishDatePieces(y: int, m: int, d: int)
    requires 1 <= m <= 12
    ensures EnglishDate(y, m, d) == MonthNames[m - 1] + ([' '] + NumberThen(d, ',', " " + IntToString(y)))
  {
    var ds, ys := IntToString(d), IntToString(y);
    assert ds + ", " + ys == NumberThen(d, ',', " " + ys);
    assert " " + ds + ", " + ys == [' '] + NumberThen(d, ',', " " + ys);
  }

  /** The English text identifies the day. */
  lemma EnglishDateInjective(y1: int, m1: int, d1: int, y2: int, m2: int, d2: int)
    requires 1 <= m1 <= 12 && 1 <= m2 <= 12
    requires EnglishDate(y1, m1, d1) == EnglishDate(y2, m2, d2)
    ensures y1 == y2 && m1 == m2 && d1 == d2
  {
    var ys1, ys2 := IntToString(y1), IntToString(y2);
    var r1 := NumberThen(d1, ',', " " + ys1);
    var r2 := NumberThen(d2, ',', " " + ys2);
    EnglishDatePieces(y1, m1, d1);
    EnglishDatePieces(y2, m2, d2);
    MonthNameLength(m1);
    MonthNameLength(m2);
    CutPrefix(MonthNames[m1 - 1], [' '] + r1, MonthNames[m2 - 1], [' '] + r2);
    MonthNamesDistinct(m1, m2);
    CutPrefix([' '], r1, [' '], r2);
    CutNumber(d1, " " + ys1, d2, " " + ys2, ',');
    CutPrefix(" ", ys1, " ", ys2);
    IntToStringInjective(y1, y2);
  }

  /** Different days give different texts in every language, so the text
      identifies the day. */
  lemma FormatPublishDateInjective(d1: DateInput, d2: DateInput, language: string)
    requires WellFormed(d1) && WellFormed(d2) && d1.Calendar? && d2.Calendar?
    requires FormatPublishDate(d1, language) == FormatPublishDate(d2, language)
    ensures d1 == d2
  {
    if CjkDates(language) {
      CjkDateInjective(d1.year, d1.month, d1.day, d2.year, d2.month, d2.day);
    } else {
      EnglishDateInjective(d1.year, d1.month, d1.day, d2.year, d2.month, d2.day);
    }
  }

  datatype DateLocale = ZhCN | Ja | EnUS

  /** getDateLocale */
  function GetDateLocale(language: string): (l: DateLocale)
    ensures language == "zh" <==> l == ZhCN
    ensures language == "ja" <==> l == Ja
  {
    match language
    case "zh" => ZhCN
    case "ja" => Ja
    case _ => EnUS
  }

  /** The relative times and the publish date follow the same language
      split: the English locale exactly when the date is written the English
      way. */
  lemma LocaleMatchesDateStyle(language: string)
    ensures GetDateLocale(language) == EnUS <==> !CjkDates(language)
  {
  }

  // ---------------------------------------------------------------------
  // Media URLs

  /** The URL an audio player is given: an upload path stays relative in
      development and gets the API origin in production; another relative
      path is rooted with one '/' (and the origin in production); an 'http'
      URL is kept. */
  function AudioUrl(url: string, isDev: bool, origin: string): (r: string)
    ensures StartsWith(url, "/uploads/") ==> r == if isDev then url else origin + url
    ensures !StartsWith(url, "/uploads/") && StartsWith(url, "http") ==> r == url
  {
    if StartsWith(url, "/uploads/") then
      if isDev then url else origin + url
    else if !StartsWith(url, "http") then
      if isDev then (if StartsWith(url, "/") then url else "/" + url)
      else origin + (if StartsWith(url, "/") then "" else "/") + url
    else url
  }

  /** Any other relative path ends up with exactly one '/' put in front when
      it had none, after the origin in production. */
  lemma RelativeAudioUrlRooted(url: string, isDev: bool, origin: string)
    requires !StartsWith(url, "/uploads/") && !StartsWith(url, "http")
    ensures var rooted := if StartsWith(url, "/") then url else "/" + url;
      && StartsWith(rooted, "/")
      && AudioUrl(url, isDev, origin) == (if isDev then rooted else origin + rooted)
  {
  }

  /** The URL an image preview is given: only upload paths are changed. */
  function ImageUrl(url: string, isDev: bool, origin: string): (r: string)
    ensures !StartsWith(url, "/uploads/") ==> r == url
  {
    if StartsWith(url, "/uploads/") && !isDev then origin + url else url
  }

  /** An uploaded file's URL resolves to the same address in the editor that
      produced it, in the image preview and in the audio player. */
  lemma UploadUrlsAgree(url: string, isDev: bool, origin: string)
    ensures ImageUrl(url, isDev, origin) == CreatePost.ResolveUploadUrl(url, isDev, origin)
    ensures StartsWith(url, "/uploads/") ==> AudioUrl(url, isDev, origin) == ImageUrl(url, isDev, origin)
  {
  }

  // ---------------------------------------------------------------------
  // Content preview

  /** The audio block: its player's URL and its title. */
  datatype AudioPreview = AudioPreview(src: string, title: string)

  /** The audio block of a post: the first audio embed (`![..](x.mp3)`), or
      failing that the first audio link (`[..](x.mp3)`); the title comes from
      the URL, not from the link text. The two lists are the URLs the two
      patterns find, in order. */
  function Audio(embedUrls: seq<string>, linkUrls: seq<string>, isDev: bool, origin: string,
                 decode: string -> string): (r: Option<AudioPreview>)
    ensures r.None? <==> embedUrls == [] && linkUrls == []
    ensures r.Some? ==>
      r.value == AudioOf(if embedUrls != [] then embedUrls[0] else linkUrls[0], isDev, origin, decode)
  {
    var all := embedUrls + linkUrls;
    if |all| > 0 then
      assert all[0] == if embedUrls != [] then embedUrls[0] else linkUrls[0];
      Some(AudioOf(all[0], isDev, origin, decode))
    else None
  }

  /** The player's URL and the title taken from the file name. */
  function AudioOf(url: string, isDev: bool, origin: string, decode: string -> string): (a: AudioPreview)
    ensures a.src == AudioUrl(url, isDev, origin) && a.title == GetFilenameFromUrl(url, decode)
  {
    AudioPreview(AudioUrl(url, isDev, origin), GetFilenameFromUrl(url, decode))
  }

  datatype PreviewBlock = TextLine(line: string) | ImageLine(alt: string, src: string)

  /** What one preview line renders. `hasAudio` stands for the two audio
      patterns, `imageOf` for the markdown-image pattern (alt text and URL). */
  function PreviewLine(line: string, isDev: bool, origin: string,
                       hasAudio: string -> bool, imageOf: string -> Option<(string, string)>)
    : (r: Option<PreviewBlock>)
    ensures hasAudio(line) ==> r.None?
    ensures r == Some(TextLine(line)) <==> !hasAudio(line) && imageOf(line).None? && Trim(line) != []
    ensures r.Some? && r.value.ImageLine? <==> !hasAudio(line) && imageOf(line).Some?
    ensures r.Some? && r.value.ImageLine? ==>
      var (alt, url) := imageOf(line).value;
      r.value.src == ImageUrl(url, isDev, origin) && r.value.alt == if alt != [] then alt else "帖子图片"
  {
    if hasAudio(line) then None
    else match imageOf(line)
      case Some((alt, url)) => Some(ImageLine(if alt != [] then alt else "帖子图片", ImageUrl(url, isDev, origin)))
      case None => if Trim(line) != [] then Some(TextLine(line)) else None
  }

  /** The preview: the first three lines of the content, each rendered on its
      own. */
  function Preview(content: string, isDev: bool, origin: string,
                   hasAudio: string -> bool, imageOf: string -> Option<(string, string)>)
    : (r: seq<Option<PreviewBlock>>)
    ensures var lines := Split(content, '\n');
      && |r| == (if |lines| < 3 then |lines| else 3)
      && forall i :: 0 <= i < |r| ==> r[i] == PreviewLine(lines[i], isDev, origin, hasAudio, imageOf)
  {
    var lines := Split(content, '\n');
    var first := lines[..if |lines| < 3 then |lines| else 3];
    seq(|first|, i requires 0 <= i < |first| => PreviewLine(first[i], isDev, origin, hasAudio, imageOf))
  }

  /** Nothing after the third line break reaches the preview. */
  lemma PreviewIgnoresLaterLines(l0: string, l1: string, l2: string, rest: string, isDev: bool, origin: string,
                                 hasAudio: string -> bool, imageOf: string -> Option<(string, string)>)
    requires '\n' !in l0 && '\n' !in l1 && '\n' !in l2
    ensures Preview(l0 + "\n" + l1 + "\n" + l2 + "\n" + rest, isDev, origin, hasAudio, imageOf)
         == Preview(l0 + "\n" + l1 + "\n" + l2, isDev, origin, hasAudio, imageOf)
  {
    var long := l0 + "\n" + l1 + "\n" + l2 + "\n" + rest;
    var short := l0 + "\n" + l1 + "\n" + l2;
    assert long == l0 + ['\n'] + (l1 + ['\n'] + (l2 + ['\n'] + rest));
    assert short == l0 + ['\n'] + (l1 + ['\n'] + l2);
    SplitAfterPiece(l0, '\n', l1 + ['\n'] + (l2 + ['\n'] + rest));
    SplitAfterPiece(l1, '\n', l2 + ['\n'] + rest);
    SplitAfterPiece(l2, '\n', rest);
    SplitAfterPiece(l0, '\n', l1 + ['\n'] + l2);
    SplitAfterPiece(l1, '\n', l2);
    SplitOfPiece(l2, '\n');
    assert Split(long, '\n')[..3] == Split(short, '\n');
  }

  // ---------------------------------------------------------------------
  // handleLike

  /** The card's like state: whether the viewer likes the post, the count
      shown, and whether a toggle request is in flight. */
  datatype LikeState = LikeState(liked: bool, likeCount: int, liking: bool)

  /** What the toggle request answers: the new state, or an error with its
      HTTP status when there is one. */
  datatype ToggleAnswer = Toggled(liked: bool, likeCount: int) | ToggleError(status: Option<int>)

  /** After a click: the new state, whether the daily 'like' task is
      updated, and whether the log-in alert shows. */
  datatype LikeResult = LikeResult(state: LikeState, likeTask: bool, loginAlert: bool)

  /** handleLike: a guest is asked to log in; a click while a request is in
      flight does nothing; otherwise the toggle's answer is shown, and only a
      toggle that ends liked counts for the daily task. */
  function HandleLike(state: LikeState, isAuthenticated: bool, answer: ToggleAnswer): (r: LikeResult)
    ensures !isAuthenticated ==> r == LikeResult(state, false, true)
    ensures isAuthenticated && state.liking ==> r == LikeResult(state, false, false)
    ensures r.likeTask <==> isAuthenticated && !state.liking && answer.Toggled? && answer.liked
    ensures isAuthenticated && !state.liking ==> !r.state.liking
    ensures isAuthenticated && !state.liking && answer.Toggled? ==>
      r.state == LikeState(answer.liked, answer.likeCount, false) && !r.loginAlert
    ensures isAuthenticated && !state.liking && answer.ToggleError? ==>
      && r.state == state.(liking := false)
      && (r.loginAlert <==> answer.status == Some(401))
  {
    if !isAuthenticated then LikeResult(state, false, true)
    else if state.liking then LikeResult(state, false, false)
    else match answer
      case Toggled(liked, likeCount) => LikeResult(LikeState(liked, likeCount, false), liked, false)
      case ToggleError(status) => LikeResult(state.(liking := false), false, status == Some(401))
  }

  /** Unliking never counts for the daily task, and a click during a request
      changes nothing. */
  lemma LikeGuards(state: LikeState, answer: ToggleAnswer)
    ensures answer.Toggled? && !answer.liked ==> !HandleLike(state, true, answer).likeTask
    ensures state.liking ==> HandleLike(state, true, answer).state == state
  {
  }
}
