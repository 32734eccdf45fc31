/**
 * Reading torrent metainfo: cursor-advancing readers over bytes, each equal to decoding generically and then
 * projecting the decoded value.
 */
module TorrentMeta {
  import opened Options
  import opened Bencode

  /** `hash` is the digest of the raw info slice; SHA-1 is a parameter of the model. */
  datatype Metadata = Metadata(name: Bytes, files: seq<Bytes>, infoHash: Bytes)

  // ---- projections of decoded values ------------------------------------------------------------

  function Strings(vs: Values): Option<seq<Bytes>> {
    match vs
    case NoValues => Some([])
    case Values(v, rest) =>
      if !v.Str? then None
      else match Strings(rest) case None => None case Some(bs) => Some([v.bytes] + bs)
  }

  function StringList(v: Value): Option<seq<Bytes>> {
    if v.List? then Strings(v.items) else None
  }

  /** The path components of one file entry: path.utf-8 when it is not empty, else path; later keys win. */
  function FilePath(es: Entries, plain: seq<Bytes>, utf8: seq<Bytes>): Option<seq<Bytes>> {
    match es
    case NoEntries => Some(if |utf8| > 0 then utf8 else plain)
    case Entry(k, v, rest) =>
      if k == "path" || k == "path.utf-8" then
        match StringList(v)
        case None => None
        case Some(parts) => if k == "path.utf-8" then FilePath(rest, plain, parts) else FilePath(rest, parts, utf8)
      else FilePath(rest, plain, utf8)
  }

  /** The string list last bound to `key`, or the given one. */
  function BoundList(es: Entries, key: Bytes, otherwise: seq<Bytes>): seq<Bytes> {
    match Last(es, key)
    case None => otherwise
    case Some(v) => match StringList(v) case None => otherwise case Some(parts) => parts
  }

  /** An accepted file entry has the path it binds last, the utf-8 variant preferred unless it is empty. */
  lemma {:induction false} PathIsLastBinding(es: Entries, plain: seq<Bytes>, utf8: seq<Bytes>)
    requires FilePath(es, plain, utf8).Some?
    ensures var preferred := BoundList(es, "path.utf-8", utf8);
            FilePath(es, plain, utf8).value == if |preferred| > 0 then preferred else BoundList(es, "path", plain)
    ensures Last(es, "path").Some? ==> StringList(Last(es, "path").value).Some?
    ensures Last(es, "path.utf-8").Some? ==> StringList(Last(es, "path.utf-8").value).Some?
    decreases es
  {
    match es {
      case NoEntries =>
      case Entry(k, v, rest) =>
        if k == "path.utf-8" {
          PathIsLastBinding(rest, plain, StringList(v).value);
        } else if k == "path" {
          PathIsLastBinding(rest, StringList(v).value, utf8);
        } else {
          PathIsLastBinding(rest, plain, utf8);
        }
    }
  }

  function Join(parts: seq<Bytes>): Bytes {
    if |parts| == 0 then "" else if |parts| == 1 then parts[0]
      else Join(parts[..|parts| - 1]) + "/" + parts[|parts| - 1]
  }

  function Named(parts: seq<Bytes>): seq<Bytes> {
    if |parts| > 0 then [Join(parts)] else []
  }

  function FilePaths(vs: Values): Option<seq<Bytes>> {
    match vs
    case NoValues => Some([])
    case Values(v, rest) =>
      if !v.Dict? then None
      else
        match FilePath(v.entries, [], [])
        case None => None
        case Some(parts) => match FilePaths(rest) case None => None case Some(files) => Some(Named(parts) + files)
  }

  function FileList(v: Value): Option<seq<Bytes>> {
    if v.List? then FilePaths(v.items) else None
  }

  datatype Info = Info(plain: Bytes, utf8: Bytes, files: seq<Bytes>)

  const NO_INFO := Info("", "", [])

  /** What the entries of an info dictionary set; later keys win. */
  function InfoOf(es: Entries, st: Info): Option<Info> {
    match es
    case NoEntries => Some(st)
    case Entry(k, v, rest) =>
      if k == "name" || k == "name.utf-8" then
        if !v.Str? then None
        else if k == "name.utf-8" then InfoOf(rest, st.(utf8 := v.bytes)) else InfoOf(rest, st.(plain := v.bytes))
      else if k == "files" then
        match FileList(v) case None => None case Some(files) => InfoOf(rest, st.(files := files))
      else InfoOf(rest, st)
  }

  function Identity(st: Info): Option<(Bytes, seq<Bytes>)> {
    var name := if |st.utf8| > 0 then st.utf8 else st.plain;
    if |name| == 0 then None else Some((name, st.files))
  }

  /** The name and files a decoded info value carries. */
  function InfoIdentity(v: Value): Option<(Bytes, seq<Bytes>)> {
    if !v.Dict? then None
    else match InfoOf(v.entries, NO_INFO) case None => None case Some(st) => Identity(st)
  }

  /** The last value bound to `key`, if any. */
  function Last(es: Entries, key: Bytes): Option<Value> {
    match es
    case NoEntries => None
    case Entry(k, v, rest) => match Last(rest, key) case Some(w) => Some(w) case None => if k == key then Some(v)
      else None
  }

  /** An accepted info dictionary carries the last `name`, `name.utf-8` and `files` it binds. */
  lemma {:induction false} InfoIsLastBinding(es: Entries, st: Info)
    requires InfoOf(es, st).Some?
    ensures var r := InfoOf(es, st).value;
            && r.plain == (match Last(es, "name") case Some(Str(b)) => b case _ => st.plain)
            && r.utf8 == (match Last(es, "name.utf-8") case Some(Str(b)) => b case _ => st.utf8)
            && (Last(es, "files") == None ==> r.files == st.files)
            && (Last(es, "files").Some? ==> FileList(Last(es, "files").value) == Some(r.files))
            && (Last(es, "name").Some? ==> Last(es, "name").value.Str?)
            && (Last(es, "name.utf-8").Some? ==> Last(es, "name.utf-8").value.Str?)
    decreases es
  {
    match es {
      case NoEntries =>
      case Entry(k, v, rest) =>
        var next :=
          if k == "name.utf-8" then st.(utf8 := v.bytes)
          else if k == "name" then st.(plain := v.bytes)
          else if k == "files" then st.(files := FileList(v).value)
          else st;
        assert InfoOf(es, st) == InfoOf(rest, next);
        InfoIsLastBinding(rest, next);
    }
  }

  // ---- the readers ------------------------------------------------------------------------------

  function Wrap64(n: int): int {
    var m := n % TWO_64;
    if m > MAX_INT then m - TWO_64 else m
  }

  /** strconv.Atoi on a run of digits: fails exactly when the value exceeds a 64-bit int. */
  function Atoi(s: Bytes): Option<nat>
    requires AllDigits(s)
  {
    if Number(s) > MAX_INT then None else Some(Number(s))
  }

  /** On machine ints the length test rejects exactly the strings that run past the input. */
  lemma WrappedLengthCheck(start: nat, n: nat, size: nat)
    requires start <= size <= MAX_INT && n <= MAX_INT
    ensures var end := Wrap64(start + n); end < start || end > size <==> start + n > size
  {
  }

  method ReadBytes(data: Bytes, i: nat) returns (r: Reading<Bytes>)
    requires |data| <= MAX_INT
    ensures r == ReadString(data, i)
  {
    if i >= |data| || data[i] < '0' || data[i] > '9' {
      return Rejected;
    }
    var colon := i;
    while colon < |data| && data[colon] >= '0' && data[colon] <= '9'
      invariant i <= colon <= |data|
      invariant DigitsEnd(data, i) == DigitsEnd(data, colon)
    {
      colon := colon + 1;
    }
    if colon >= |data| || data[colon] != ':' {
      return Rejected;
    }
    var n := Atoi(data[i..colon]);
    if n == None {
      return Rejected;
    }
    var start := colon + 1;
    var end := Wrap64(start + n.value);
    WrappedLengthCheck(start, n.value, |data|);
    if end < start || end > |data| {
      return Rejected;
    }
    return Accepted(data[start..end], end);
  }

  /** Where the generic skipper ends: the end of the decoded value. */
  function Skip(data: Bytes, i: nat): Option<nat> {
    match Decode(data, i) case Rejected => None case Accepted(_, e) => Some(e)
  }

  /** The end of a container's content from position j on. */
  function SkipRest(data: Bytes, j: nat, dict: bool): Option<nat> {
    if dict then match DecodeEntries(data, j) case Rejected => None case Accepted(_, e) => Some(e)
    else match DecodeItems(data, j) case Rejected => None case Accepted(_, e) => Some(e)
  }

  method SkipValue(data: Bytes, i: nat) returns (end: Option<nat>)
    requires |data| <= MAX_INT
    ensures end == Skip(data, i)
    decreases |data| - i, 0
  {
    if i >= |data| {
      return None;
    }
    if data[i] == 'i' {
      var e := i + 1;
      while e < |data| && data[e] != 'e'
        invariant i + 1 <= e <= |data|
        invariant IndexOfE(data, i + 1) == IndexOfE(data, e)
      {
        e := e + 1;
      }
      if e >= |data| || e == i + 1 {
        return None;
      }
      return Some(e + 1);
    }
    if data[i] == 'l' || data[i] == 'd' {
      end := SkipContainer(data, i);
      return;
    }
    var r := ReadBytes(data, i);
    return match r case Rejected => None case Accepted(_, e) => Some(e);
  }

  method SkipContainer(data: Bytes, i: nat) returns (end: Option<nat>)
    requires |data| <= MAX_INT && i < |data| && data[i] in {'l', 'd'}
    ensures end == SkipRest(data, i + 1, data[i] == 'd')
    decreases |data| - i - 1, 1
  {
    var j := i + 1;
    while j < |data| && data[j] != 'e'
      invariant i + 1 <= j <= |data|
      invariant SkipRest(data, i + 1, data[i] == 'd') == SkipRest(data, j, data[i] == 'd')
    {
      var at := j;
      if data[i] == 'd' {
        var key := ReadBytes(data, j);
        if key == Rejected {
          return None;
        }
        at := key.end;
      }
      var next := SkipValue(data, at);
      if next == None {
        return None;
      }
      j := next.value;
    }
    if j >= |data| {
      return None;
    }
    return Some(j + 1);
  }

  // ---- lists of byte strings ----------------------------------------------------------------------

  /** A path list at position i: the generic reading, if it is a list of byte strings. */
  function StringListAt(data: Bytes, i: nat): Reading<seq<Bytes>> {
    match Decode(data, i)
    case Rejected => Rejected
    case Accepted(v, e) => match StringList(v) case None => Rejected case Some(bs) => Accepted(bs, e)
  }

  function StringsFrom(data: Bytes, j: nat, out: seq<Bytes>): Reading<seq<Bytes>> {
    match DecodeItems(data, j)
    case Rejected => Rejected
    case Accepted(vs, e) => match Strings(vs) case None => Rejected case Some(bs) => Accepted(out + bs, e)
  }

  /** A byte string is read exactly where the generic reader finds one, with the same end. */
  lemma StringIsGeneric(data: Bytes, i: nat)
    ensures ReadString(data, i) == match Decode(data, i) case Accepted(Str(b), e) => Accepted(b, e) case _ => Rejected
  {
  }

  lemma StringsStep(data: Bytes, j: nat, out: seq<Bytes>)
    requires j < |data|
    ensures data[j] == 'e' ==> StringsFrom(data, j, out) == Accepted(out, j + 1)
    ensures data[j] != 'e' ==> (StringsFrom(data, j, out) ==
              match ReadString(data, j) case Rejected => Rejected
                case Accepted(b, next) => StringsFrom(data, next, out + [b]))
  {
    hide Decode; hide DecodeItems; hide DecodeEntries; hide ReadString; hide ReadInt;
    if data[j] == 'e' {
      Closed(data, j);
      assert out + [] == out;
    } else {
      StringIsGeneric(data, j);
      ItemsUnfold(data, j);
      if Decode(data, j).Accepted? && DecodeItems(data, Decode(data, j).end).Accepted? {
        var v, vs := Decode(data, j).value, DecodeItems(data, Decode(data, j).end).value;
        if v.Str? && Strings(vs).Some? {
          assert out + ([v.bytes] + Strings(vs).value) == (out + [v.bytes]) + Strings(vs).value;
        }
      }
    }
  }

  lemma ItemsUnfold(data: Bytes, j: nat)
    requires j < |data| && data[j] != 'e'
    ensures DecodeItems(data, j) ==
      match Decode(data, j)
      case Rejected => Rejected
      case Accepted(v, next) =>
        match DecodeItems(data, next) case Rejected => Rejected case Accepted(vs, e) => Accepted(Values(v, vs), e)
  {
  }

  lemma ListStarts(data: Bytes, i: nat)
    ensures i >= |data| || data[i] != 'l' ==> !(Decode(data, i).Accepted? && Decode(data, i).value.List?)
    ensures i < |data| && data[i] == 'l' ==>
      StringListAt(data, i) == StringsFrom(data, i + 1, []) && FileListAt(data, i) == FilesFrom(data, i + 1, [])
  {
    hide DecodeItems; hide DecodeEntries; hide ReadString; hide ReadInt;
    if i < |data| && data[i] == 'l' && DecodeItems(data, i + 1).Accepted? {
      var vs := DecodeItems(data, i + 1).value;
      assert Strings(vs).Some? ==> [] + Strings(vs).value == Strings(vs).value;
      assert FilePaths(vs).Some? ==> [] + FilePaths(vs).value == FilePaths(vs).value;
    }
  }

  method ReadStringList(data: Bytes, i: nat) returns (r: Reading<seq<Bytes>>)
    requires |data| <= MAX_INT
    ensures r == StringListAt(data, i)
  {
    hide Decode; hide DecodeItems; hide DecodeEntries; hide ReadString; hide ReadInt;
    ListStarts(data, i);
    if i >= |data| || data[i] != 'l' {
      return Rejected;
    }
    var j, out := i + 1, [];
    while j < |data| && data[j] != 'e'
      invariant i < j <= |data|
      invariant StringListAt(data, i) == StringsFrom(data, j, out)
    {
      StringsStep(data, j, out);
      var value := ReadBytes(data, j);
      if value == Rejected {
        return Rejected;
      }
      out := out + [value.value];
      j := value.end;
    }
    if j >= |data| {
      return Rejected;
    }
    StringsStep(data, j, out);
    return Accepted(out, j + 1);
  }

  // ---- the file list --------------------------------------------------------------------------------

  function FileListAt(data: Bytes, i: nat): Reading<seq<Bytes>> {
    match Decode(data, i)
    case Rejected => Rejected
    case Accepted(v, e) => match FileList(v) case None => Rejected case Some(files) => Accepted(files, e)
  }

  function FilesFrom(data: Bytes, j: nat, out: seq<Bytes>): Reading<seq<Bytes>> {
    match DecodeItems(data, j)
    case Rejected => Rejected
    case Accepted(vs, e) => match FilePaths(vs) case None => Rejected case Some(files) => Accepted(out + files, e)
  }

  function FileFrom(data: Bytes, j: nat, plain: seq<Bytes>, utf8: seq<Bytes>): Reading<seq<Bytes>> {
    match DecodeEntries(data, j)
    case Rejected => Rejected
    case Accepted(es, e) => match FilePath(es, plain, utf8) case None => Rejected case Some(parts) => Accepted(parts, e)
  }

  lemma FilesStep(data: Bytes, j: nat, out: seq<Bytes>)
    requires j < |data|
    ensures data[j] == 'e' ==> FilesFrom(data, j, out) == Accepted(out, j + 1)
    ensures data[j] != 'e' && data[j] != 'd' ==> FilesFrom(data, j, out) == Rejected
    ensures data[j] == 'd' ==> (FilesFrom(data, j, out) ==
              match FileFrom(data, j + 1, [], []) case Rejected => Rejected
                case Accepted(parts, next) => FilesFrom(data, next, out + Named(parts)))
  {
    hide DecodeItems; hide DecodeEntries; hide ReadString; hide ReadInt;
    if data[j] == 'e' {
      Closed(data, j);
      assert out + [] == out;
    } else {
      ItemsUnfold(data, j);
      if Decode(data, j).Accepted? && DecodeItems(data, Decode(data, j).end).Accepted? {
        var v, vs := Decode(data, j).value, DecodeItems(data, Decode(data, j).end).value;
        if v.Dict? && FilePath(v.entries, [], []).Some? && FilePaths(vs).Some? {
          var parts, files := FilePath(v.entries, [], []).value, FilePaths(vs).value;
          assert out + (Named(parts) + files) == (out + Named(parts)) + files;
        }
      }
    }
  }

  /** Reading one key of a file dictionary and going on after its value. */
  function NextFileKey(data: Bytes, j: nat, plain: seq<Bytes>, utf8: seq<Bytes>): Reading<seq<Bytes>> {
    match ReadString(data, j)
    case Rejected => Rejected
    case Accepted(key, at) =>
      if key == "path.utf-8" then
        match StringListAt(data, at) case Rejected => Rejected
          case Accepted(parts, next) => FileFrom(data, next, plain, parts)
      else if key == "path" then
        match StringListAt(data, at) case Rejected => Rejected
          case Accepted(parts, next) => FileFrom(data, next, parts, utf8)
      else
        match Skip(data, at) case None => Rejected case Some(next) => FileFrom(data, next, plain, utf8)
  }

  lemma FileStep(data: Bytes, j: nat, plain: seq<Bytes>, utf8: seq<Bytes>)
    requires j < |data|
    ensures data[j] == 'e' ==> FileFrom(data, j, plain, utf8) == Accepted(if |utf8| > 0 then utf8 else plain, j + 1)
    ensures data[j] != 'e' ==> FileFrom(data, j, plain, utf8) == NextFileKey(data, j, plain, utf8)
  {
  }

  /** One file dictionary, after its `d`. */
  method ReadFile(data: Bytes, i: nat) returns (r: Reading<seq<Bytes>>)
    requires |data| <= MAX_INT && i <= |data|
    ensures r == FileFrom(data, i, [], [])
  {
    hide Decode; hide DecodeItems; hide DecodeEntries; hide ReadString; hide ReadInt;
    var j, plain, utf8 := i, [], [];
    while j < |data| && data[j] != 'e'
      invariant i <= j <= |data|
      invariant FileFrom(data, i, [], []) == FileFrom(data, j, plain, utf8)
    {
      FileStep(data, j, plain, utf8);
      var key := ReadBytes(data, j);
      if key == Rejected {
        return Rejected;
      }
      if key.value == "path" || key.value == "path.utf-8" {
        var parts := ReadStringList(data, key.end);
        if parts == Rejected {
          return Rejected;
        }
        if key.value == "path.utf-8" {
          utf8 := parts.value;
        } else {
          plain := parts.value;
        }
        j := parts.end;
      } else {
        var next := SkipValue(data, key.end);
        if next == None {
          return Rejected;
        }
        j := next.value;
      }
    }
    if j >= |data| {
      return Rejected;
    }
    FileStep(data, j, plain, utf8);
    return Accepted(if |utf8| > 0 then utf8 else plain, j + 1);
  }

  method ReadFileList(data: Bytes, i: nat) returns (r: Reading<seq<Bytes>>)
    requires |data| <= MAX_INT
    ensures r == FileListAt(data, i)
  {
    hide Decode; hide DecodeItems; hide DecodeEntries; hide ReadString; hide ReadInt;
    ListStarts(data, i);
    if i >= |data| || data[i] != 'l' {
      return Rejected;
    }
    var j, out := i + 1, [];
    while j < |data| && data[j] != 'e'
      invariant i < j <= |data|
      invariant FileListAt(data, i) == FilesFrom(data, j, out)
    {
      FilesStep(data, j, out);
      if data[j] != 'd' {
        return Rejected;
      }
      var file := ReadFile(data, j + 1);
      if file == Rejected {
        return Rejected;
      }
      if |file.value| > 0 {
        out := out + [Join(file.value)];
      } else {
        assert out + [] == out;
      }
      j := file.end;
    }
    if j >= |data| {
      return Rejected;
    }
    FilesStep(data, j, out);
    return Accepted(out, j + 1);
  }

  /**
   * The specialised readers advance exactly like the generic skipper: whatever they accept, it accepts with the
   * same end, which lies beyond the start and inside the input.
   */
  lemma ReadersAdvanceAlike(data: Bytes, i: nat)
    ensures ReadString(data, i).Accepted? ==> Skip(data, i) == Some(ReadString(data, i).end)
    ensures StringListAt(data, i).Accepted? ==> Skip(data, i) == Some(StringListAt(data, i).end)
    ensures FileListAt(data, i).Accepted? ==> Skip(data, i) == Some(FileListAt(data, i).end)
    ensures Skip(data, i).Some? ==> i < Skip(data, i).value <= |data|
  {
  }

  /** What a reader accepts depends only on the bytes it consumes. */
  lemma ReadersAreLocal(data: Bytes, i: nat, data': Bytes, j: nat)
    requires Skip(data, i).Some? && Copied(data, i, Skip(data, i).value, data', j)
    ensures Skip(data', j) == Some(j + (Skip(data, i).value - i))
    ensures FileListAt(data, i).Accepted? ==>
      FileListAt(data', j) == Accepted(FileListAt(data, i).value, j + (FileListAt(data, i).end - i))
    ensures StringListAt(data, i).Accepted? ==>
      StringListAt(data', j) == Accepted(StringListAt(data, i).value, j + (StringListAt(data, i).end - i))
    ensures ReadString(data, i).Accepted? ==>
      ReadString(data', j) == Accepted(ReadString(data, i).value, j + (ReadString(data, i).end - i))
  {
    hide Decode; hide DecodeItems; hide DecodeEntries; hide ReadString; hide ReadInt;
    StringIsGeneric(data, i);
    StringIsGeneric(data', j);
    DecodeLocal(data, i, data', j);
  }

  // ---- the info dictionary ----------------------------------------------------------------------------

  /** The info loop from position j on. It stops at the closing `e` or at the end of the input. */
  function ScanInfo(data: Bytes, j: nat, st: Info): Option<Info>
    decreases |data| - j
  {
    if j >= |data| || data[j] == 'e' then Some(st)
    else
      match ReadString(data, j)
      case Rejected => None
      case Accepted(key, at) =>
        if key == "name" || key == "name.utf-8" then
          match ReadString(data, at)
          case Rejected => None
          case Accepted(b, next) => ScanInfo(data, next, if key == "name.utf-8" then st.(utf8 := b)
            else st.(plain := b))
        else if key == "files" then
          match FileListAt(data, at) case Rejected => None
            case Accepted(files, next) => ScanInfo(data, next, st.(files := files))
        else
          match Skip(data, at) case None => None case Some(next) => ScanInfo(data, next, st)
  }

  method ReadInfo(info: Bytes) returns (r: Option<(Bytes, seq<Bytes>)>)
    requires |info| <= MAX_INT
    ensures r == if info == "" || info[0] != 'd' then None
                 else match ScanInfo(info, 1, NO_INFO) case None => None case Some(st) => Identity(st)
  {
    hide Decode; hide DecodeItems; hide DecodeEntries; hide ReadString; hide ReadInt;
    if info == "" || info[0] != 'd' {
      return None;
    }
    var i, plain, utf8, files := 1, "", "", [];
    while i < |info| && info[i] != 'e'
      invariant 1 <= i <= |info|
      invariant ScanInfo(info, 1, NO_INFO) == ScanInfo(info, i, Info(plain, utf8, files))
    {
      var key := ReadBytes(info, i);
      if key == Rejected {
        return None;
      }
      if key.value == "name" || key.value == "name.utf-8" {
        var value := ReadBytes(info, key.end);
        if value == Rejected {
          return None;
        }
        if key.value == "name.utf-8" {
          utf8 := value.value;
        } else {
          plain := value.value;
        }
        i := value.end;
      } else if key.value == "files" {
        var values := ReadFileList(info, key.end);
        if values == Rejected {
          return None;
        }
        files, i := values.value, values.end;
      } else {
        var next := SkipValue(info, key.end);
        if next == None {
          return None;
        }
        i := next.value;
      }
    }
    return Identity(Info(plain, utf8, files));
  }

  /** On a complete dictionary the info loop sets what its decoded entries set. */
  lemma {:induction false} ScanInfoIsGeneric(data: Bytes, j: nat, st: Info)
    requires DecodeEntries(data, j).Accepted?
    ensures ScanInfo(data, j, st) == InfoOf(DecodeEntries(data, j).value, st)
    decreases |data| - j
  {
    hide Decode; hide DecodeItems; hide DecodeEntries; hide ReadString; hide ReadInt;
    if j < |data| && data[j] == 'e' {
      Closed(data, j);
    } else {
      EntrySteps(data, j);
      var key, at := ReadString(data, j).value, ReadString(data, j).end;
      var v, next := Decode(data, at).value, Decode(data, at).end;
      StringIsGeneric(data, at);
      var st' :=
        if key == "name.utf-8" && v.Str? then st.(utf8 := v.bytes)
        else if key == "name" && v.Str? then st.(plain := v.bytes)
        else if key == "files" && FileList(v).Some? then st.(files := FileList(v).value)
        else st;
      ScanInfoIsGeneric(data, next, st');
    }
  }

  // ---- the whole file -----------------------------------------------------------------------------------

  datatype Span = Span(start: nat, end: nat)

  /** The root loop from position i on: the last span bound to `info`, if the keys and values can be read. */
  function ScanRoot(data: Bytes, i: nat, info: Option<Span>): Option<Option<Span>>
    decreases |data| - i
  {
    if i >= |data| || data[i] == 'e' then Some(info)
    else
      match ReadString(data, i)
      case Rejected => None
      case Accepted(key, start) =>
        match Skip(data, start)
        case None => None
        case Some(end) => ScanRoot(data, end, if key == "info" then Some(Span(start, end)) else info)
  }

  lemma {:induction false} ScanRootSpan(data: Bytes, i: nat, info: Option<Span>)
    requires info.Some? ==> 0 < info.value.start < info.value.end <= |data|
    ensures var r := ScanRoot(data, i, info); r.Some? && r.value.Some? ==>
      0 < r.value.value.start < r.value.value.end <= |data|
    decreases |data| - i
  {
    if i < |data| && data[i] != 'e' && ReadString(data, i).Accepted? {
      var start := ReadString(data, i).end;
      if Skip(data, start).Some? {
        var end := Skip(data, start).value;
        ScanRootSpan(data, end, if ReadString(data, i).value == "info" then Some(Span(start, end)) else info);
      }
    }
  }

  /** What Parse makes of the info slice it found. */
  function FromInfo(hash: Bytes -> Bytes, info: Bytes): Option<Metadata> {
    if info == "" || info[0] != 'd' then None
    else
      match ScanInfo(info, 1, NO_INFO)
      case None => None
      case Some(st) => match Identity(st) case None => None case Some(id) => Some(Metadata(id.0, id.1, hash(info)))
  }

  function ParseOf(hash: Bytes -> Bytes, data: Bytes): Option<Metadata> {
    if data == "" || data[0] != 'd' then None
    else
      match ScanRoot(data, 1, None)
      case None => None
      case Some(None) => None
      case Some(Some(span)) =>
        ScanRootSpan(data, 1, None);
        FromInfo(hash, data[span.start..span.end])
  }

  method Parse(hash: Bytes -> Bytes, data: Bytes) returns (r: Option<Metadata>)
    requires |data| <= MAX_INT
    ensures r == ParseOf(hash, data)
  {
    if data == "" || data[0] != 'd' {
      return None;
    }
    var i, info: Option<Span> := 1, None;
    while i < |data| && data[i] != 'e'
      invariant 1 <= i <= |data|
      invariant info.Some? ==> 0 < info.value.start < info.value.end <= |data|
      invariant ScanRoot(data, 1, None) == ScanRoot(data, i, info)
    {
      var key := ReadBytes(data, i);
      if key == Rejected {
        return None;
      }
      var end := SkipValue(data, key.end);
      if end == None {
        return None;
      }
      if key.value == "info" {
        info := Some(Span(key.end, end.value));
      }
      i := end.value;
    }
    if info == None {
      return None;
    }
    var slice := data[info.value.start..info.value.end];
    var id := ReadInfo(slice);
    if id == None {
      return None;
    }
    return Some(Metadata(id.value.0, id.value.1, hash(slice)));
  }

  // ---- what Parse means ---------------------------------------------------------------------------------

  /** The metadata a decoded info value and its digest make. */
  function FromValue(v: Value, digest: Bytes): Option<Metadata> {
    match InfoIdentity(v) case None => None case Some(id) => Some(Metadata(id.0, id.1, digest))
  }

  /** Reading an info slice is projecting the value it decodes to, wherever it was cut from. */
  lemma SliceIsGeneric(hash: Bytes -> Bytes, data: Bytes, s: nat)
    requires Decode(data, s).Accepted?
    ensures var e :=
      Decode(data, s).end; FromInfo(hash, data[s..e]) == FromValue(Decode(data, s).value, hash(data[s..e]))
  {
    hide DecodeItems; hide DecodeEntries; hide ReadString; hide ReadInt;
    var e := Decode(data, s).end;
    var info := data[s..e];
    assert info[0..|info|] == data[s..e];
    DecodeLocal(data, s, info, 0);
    if info[0] == 'd' {
      ScanInfoIsGeneric(info, 1, NO_INFO);
    }
  }

  /** Where the values bound to `key` start among the entries read from position i on, in order. */
  ghost function Starts(data: Bytes, i: nat, key: Bytes): seq<nat>
    requires DecodeEntries(data, i).Accepted?
    decreases |data| - i
  {
    if data[i] == 'e' then []
    else
      EntrySteps(data, i);
      var at := ReadString(data, i).end;
      (if ReadString(data, i).value == key then [at] else []) + Starts(data, Decode(data, at).end, key)
  }

  /**
   * On any complete root dictionary the root loop finds exactly the last value bound to `info`, where that entry
   * stands.
   */
  lemma {:induction false} RootIsGeneric(data: Bytes, i: nat, info: Option<Span>)
    requires DecodeEntries(data, i).Accepted?
    ensures var last := Last(DecodeEntries(data, i).value, "info");
            var starts := Starts(data, i, "info");
            && (last == None <==> starts == [])
            && match ScanRoot(data, i, info)
            case None => false
            case Some(span) =>
              && (last == None ==> span == info)
              && (last.Some? ==> span.Some? && span.value.start == starts[|starts| - 1]
                                 && Decode(data, span.value.start) == Accepted(last.value, span.value.end))
    decreases |data| - i
  {
    hide Decode; hide DecodeItems; hide DecodeEntries; hide ReadString; hide ReadInt;
    if i < |data| && data[i] == 'e' {
      Closed(data, i);
    } else {
      EntrySteps(data, i);
      var start := ReadString(data, i).end;
      var end := Decode(data, start).end;
      RootIsGeneric(data, end, if ReadString(data, i).value == "info" then Some(Span(start, end)) else info);
    }
  }

  /**
   * For every input that starts with a readable dictionary, Parse returns the name and files its last info entry
   * carries and the digest of exactly the bytes that entry's value was read from; it fails without one.
   */
  lemma ParseDecoded(hash: Bytes -> Bytes, data: Bytes)
    requires DecodeEntries(data, 1).Accepted? && data != "" && data[0] == 'd'
    ensures var starts := Starts(data, 1, "info");
            if starts == [] then ParseOf(hash, data) == None
            else
              var value := Decode(data, starts[|starts| - 1]);
              && value.Accepted? && Last(DecodeEntries(data, 1).value, "info") == Some(value.value)
              && ParseOf(hash, data) == FromValue(value.value, hash(data[starts[|starts| - 1]..value.end]))
  {
    RootIsGeneric(data, 1, None);
    var span := ScanRoot(data, 1, None).value;
    if span.Some? {
      SliceIsGeneric(hash, data, span.value.start);
    }
  }

  /** In an encoded dictionary the span found for `info` holds exactly the encoding of its value. */
  lemma {:induction false} EncodedInfoSpan(data: Bytes, i: nat, es: Entries, info: Option<Span>)
    requires EncodableEntries(es) && Holds(data, i, EncodeEntries(es))
    ensures var last := Last(es, "info");
            match ScanRoot(data, i, info)
            case None => false
            case Some(span) =>
              && (last == None ==> span == info)
              && (last.Some? ==>
                   span.Some? && Encodable(last.value) && Holds(data, span.value.start, Encode(last.value)))
              && (last.Some? ==> span.value.end == span.value.start + |Encode(last.value)|)
    decreases es
  {
    hide Decode;
    hide DecodeItems;
    hide DecodeEntries;
    hide ReadString;
    hide ReadInt;
    hide Holds;
    hide ScanRoot;
    hide Encode;
    match es {
      case NoEntries =>
        HeldByte(data, i, "e");
        RootEnds(data, i, info);
      case Entry(k, v, rest) =>
        EntriesParts(data, i, k, v, rest);
        var start := i + |EncodeString(k)|;
        StringRoundTrip(data, i, k);
        DecodeEncode(data, start, v);
        RootStep(data, i, info);
        EncodedInfoSpan(data, start + |Encode(v)|, rest, if k == "info" then Some(Span(start, start + |Encode(v)|))
          else info);
    }
  }

  lemma RootEnds(data: Bytes, i: nat, info: Option<Span>)
    requires i >= |data| || data[i] == 'e'
    ensures ScanRoot(data, i, info) == Some(info)
  {
  }

  lemma RootStep(data: Bytes, i: nat, info: Option<Span>)
    requires i < |data| && data[i] != 'e' && ReadString(data, i).Accepted? &&
      Decode(data, ReadString(data, i).end).Accepted?
    ensures var start := ReadString(data, i).end;
            var end := Decode(data, start).end;
            ScanRoot(data, i, info) ==
              ScanRoot(data, end, if ReadString(data, i).value == "info" then Some(Span(start, end)) else info)
  {
  }

  lemma HeldByte(data: Bytes, i: nat, b: Bytes)
    requires Holds(data, i, b) && b != ""
    ensures i < |data| && data[i] == b[0]
  {
  }

  /**
   * The round trip: parsing an encoded root dictionary, whatever follows it, returns the name and files of its
   * last info value and the digest of exactly that value's encoding.
   */
  lemma ParseEncoded(hash: Bytes -> Bytes, root: Entries, tail: Bytes)
    requires EncodableEntries(root)
    ensures ParseOf(hash, Encode(Dict(root)) + tail) ==
      match Last(root, "info") case None => None case Some(v) => FromValue(v, hash(Encode(v)))
  {
    hide ScanInfo;
    hide InfoIdentity;
    hide Decode; hide DecodeItems; hide DecodeEntries; hide ReadString; hide ReadInt; hide ScanRoot; hide Encode;
    var data := Encode(Dict(root)) + tail;
    RootHolds(root, tail);
    EncodedInfoSpan(data, 1, root, None);
    var last := Last(root, "info");
    if last.Some? {
      var start := ScanRoot(data, 1, None).value.value.start;
      DecodeEncode(data, start, last.value);
      SliceIsGeneric(hash, data, start);
    }
  }

  lemma RootHolds(root: Entries, tail: Bytes)
    ensures var data := Encode(Dict(root)) + tail; data != "" && data[0] == 'd' && Holds(data, 1, EncodeEntries(root))
  {
  }

  // ---- which name wins ------------------------------------------------------------------------------------

  /** Every name is a byte string and every file list is readable. */
  predicate Acceptable(es: Entries) {
    match es
    case NoEntries => true
    case Entry(k, v, rest) =>
      (k in {"name", "name.utf-8"} ==> v.Str?) && (k == "files" ==> FileList(v).Some?) && Acceptable(rest)
  }

  lemma {:induction false} AcceptableIff(es: Entries, st: Info)
    ensures InfoOf(es, st).Some? <==> Acceptable(es)
    decreases es
  {
    match es {
      case NoEntries =>
      case Entry(k, v, rest) =>
        if (k in {"name", "name.utf-8"} ==> v.Str?) && (k == "files" ==> FileList(v).Some?) {
          AcceptableIff(rest,
            if k == "name.utf-8" then st.(utf8 := v.bytes)
            else if k == "name" then st.(plain := v.bytes)
            else if k == "files" then st.(files := FileList(v).value)
            else st);
        }
    }
  }

  /** The bytes last bound to the key, if any. */
  function BoundText(es: Entries, key: Bytes): Bytes {
    match Last(es, key) case Some(Str(b)) => b case _ => ""
  }

  /**
   * The name of a torrent is its last `name.utf-8` if that is not empty, else its last `name`; the files are those of
   * its last file list. Parsing fails exactly if the last info value is no dictionary, is not acceptable, or has
   * neither name.
   */
  lemma ParsedName(hash: Bytes -> Bytes, root: Entries, tail: Bytes)
    requires EncodableEntries(root) && Last(root, "info").Some?
    ensures var r, v := ParseOf(hash, Encode(Dict(root)) + tail), Last(root, "info").value;
            && (!v.Dict? ==> r == None)
            && (v.Dict? ==>
                 var utf8, plain := BoundText(v.entries, "name.utf-8"), BoundText(v.entries, "name");
                 && (r.Some? <==> Acceptable(v.entries) && (utf8 != "" || plain != ""))
                 && (r.Some? ==>
                      && r.value.name == (if utf8 != "" then utf8 else plain)
                      && (match Last(v.entries, "files")
                          case None => r.value.files == []
                          case Some(list) => FileList(list) == Some(r.value.files))
                      && r.value.infoHash == hash(Encode(v))))
  {
    ParseEncoded(hash, root, tail);
    hide Encode;
    hide ParseOf;
    var v := Last(root, "info").value;
    if v.Dict? {
      AcceptableIff(v.entries, NO_INFO);
      if Acceptable(v.entries) {
        InfoIsLastBinding(v.entries, NO_INFO);
      }
    }
  }

  // ---- parsing what a torrent was made of -----------------------------------------------------------------

  /** Joining is piecewise: two lists of components are joined by one slash. */
  lemma {:induction false} JoinConcat(a: seq<Bytes>, b: seq<Bytes>)
    requires a != [] && b != []
    ensures Join(a + b) == Join(a) + "/" + Join(b)
    decreases b
  {
    var n := |b| - 1;
    assert (a + b)[..|a + b| - 1] == a + b[..n];
    if n > 0 {
      JoinConcat(a, b[..n]);
      assert Join(a) + "/" + (Join(b[..n]) + "/" + b[n]) == (Join(a) + "/" + Join(b[..n])) + "/" + b[n];
    } else {
      assert b[..n] == [] && a + b[..n] == a;
    }
  }

  /** The components of a joined path: split at every slash. */
  function Split(b: Bytes): (parts: seq<Bytes>)
    ensures parts != []
  {
    if b == "" then [""]
    else
      var rest := Split(b[1..]);
      if b[0] == '/' then [""] + rest else [[b[0]] + rest[0]] + rest[1..]
  }

  lemma {:induction false} SplitPlain(a: Bytes)
    requires '/' !in a
    ensures Split(a) == [a]
  {
    if a != "" {
      assert a == [a[0]] + a[1..];
      SplitPlain(a[1..]);
    }
  }

  lemma {:induction false} SplitAt(a: Bytes, b: Bytes)
    requires '/' !in a
    ensures Split(a + "/" + b) == [a] + Split(b)
  {
    if a == "" {
      assert a + "/" + b == "/" + b && ("/" + b)[1..] == b;
    } else {
      var all := a + "/" + b;
      assert a == [a[0]] + a[1..] && all[1..] == a[1..] + "/" + b;
      SplitAt(a[1..], b);
      assert [a[0]] + a[1..] == a;
    }
  }

  /** A joined path splits into its components again, if none of them holds a slash. */
  lemma {:induction false} SplitJoin(parts: seq<Bytes>)
    requires parts != [] && forall i :: 0 <= i < |parts| ==> '/' !in parts[i]
    ensures Split(Join(parts)) == parts
  {
    if |parts| == 1 {
      SplitPlain(parts[0]);
    } else {
      assert parts == [parts[0]] + parts[1..];
      JoinConcat([parts[0]], parts[1..]);
      SplitJoin(parts[1..]);
      SplitAt(parts[0], Join(parts[1..]));
    }
  }

  function TextList(parts: seq<Bytes>): Values {
    if parts == [] then NoValues else Values(Str(parts[0]), TextList(parts[1..]))
  }

  /** The file list of a torrent with these file paths. */
  function FileDicts(paths: seq<seq<Bytes>>): Values {
    if paths == [] then NoValues
    else Values(Dict(Entry("path", List(TextList(paths[0])), NoEntries)), FileDicts(paths[1..]))
  }

  /** The info dictionary of a torrent with this name and these file paths. */
  function InfoEntries(name: Bytes, paths: seq<seq<Bytes>>): Entries {
    Entry("files", List(FileDicts(paths)), Entry("name", Str(name), NoEntries))
  }

  /** The whole metainfo: an announce URL and the info dictionary. */
  function TorrentEntries(announce: Bytes, name: Bytes, paths: seq<seq<Bytes>>): Entries {
    Entry("announce", Str(announce), Entry("info", Dict(InfoEntries(name, paths)), NoEntries))
  }

  lemma {:induction false} TextListRead(parts: seq<Bytes>)
    ensures Strings(TextList(parts)) == Some(parts)
  {
    if parts != [] {
      TextListRead(parts[1..]);
      assert parts == [parts[0]] + parts[1..];
    }
  }

  function Joined(paths: seq<seq<Bytes>>): (r: seq<Bytes>)
    ensures |r| == |paths| && forall i :: 0 <= i < |paths| ==> r[i] == Join(paths[i])
  {
    seq(|paths|, i requires 0 <= i < |paths| => Join(paths[i]))
  }

  lemma {:induction false} FileDictsRead(paths: seq<seq<Bytes>>)
    requires forall i :: 0 <= i < |paths| ==> paths[i] != []
    ensures FilePaths(FileDicts(paths)) == Some(Joined(paths))
  {
    if paths != [] {
      TextListRead(paths[0]);
      FileDictsRead(paths[1..]);
      var file := Entry("path", List(TextList(paths[0])), NoEntries);
      assert FilePath(file, [], []) == FilePath(NoEntries, paths[0], []) == Some(paths[0]);
      assert Joined(paths) == [Join(paths[0])] + Joined(paths[1..]);
    }
  }

  lemma InfoEntriesRead(name: Bytes, paths: seq<seq<Bytes>>)
    requires forall i :: 0 <= i < |paths| ==> paths[i] != []
    ensures InfoOf(InfoEntries(name, paths), NO_INFO) == Some(Info(name, "", Joined(paths)))
  {
    FileDictsRead(paths);
    hide FilePaths;
    hide FileDicts;
    var rest := Entry("name", Str(name), NoEntries);
    var st := Info("", "", Joined(paths));
    assert InfoOf(rest, st) == InfoOf(NoEntries, st.(plain := name)) == Some(st.(plain := name));
  }

  /**
   * A torrent parses back to what it was made of: its name, its file paths with the components joined by slashes, in
   * order, and the digest of exactly its info dictionary.
   */
  lemma TorrentRoundTrip(hash: Bytes -> Bytes, announce: Bytes, name: Bytes, paths: seq<seq<Bytes>>, tail: Bytes)
    requires name != "" && forall i :: 0 <= i < |paths| ==> paths[i] != []
    requires EncodableEntries(TorrentEntries(announce, name, paths))
    ensures ParseOf(hash, Encode(Dict(TorrentEntries(announce, name, paths))) + tail) ==
      Some(Metadata(name, Joined(paths), hash(Encode(Dict(InfoEntries(name, paths))))))
  {
    InfoEntriesRead(name, paths);
    ParseEncoded(hash, TorrentEntries(announce, name, paths), tail);
    hide Encode;
    hide ParseOf;
    hide InfoEntries;
    hide InfoOf;
    var info := Entry("info", Dict(InfoEntries(name, paths)), NoEntries);
    assert Last(info, "info") == Some(Dict(InfoEntries(name, paths)));
  }
}
