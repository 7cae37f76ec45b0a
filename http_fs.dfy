/**
 * The filesystem operations around the read path: getattr's guess at
 * directories, open's file handle, and read, which clamps the request
 * against the cached file size, fetches the range and caches the size the
 * server reports.
 */
module HttpFs {
  import opened LibcText
  import opened ResponseParser
  import opened RangeFetch

  /** Linux errno values. */
  const ENOENT: int := 2
  const EACCES: int := 13
  const EISDIR: int := 21

  const O_RDONLY: nat := 0
  const O_ACCMODE: nat := 3

  /** The capacity of `struct httpfs_file`'s url, terminating NUL included. */
  const UrlCapacity: nat := 512

  /** st_mode values: S_IFDIR | 0111 and S_IFREG | 0444. */
  const DirMode: int := 0x4000 + 0x49
  const FileMode: int := 0x8000 + 0x124

  datatype Stat = Stat(mode: int, nlink: nat)

  /**
   * httpfs_getattr: a path of length 1 ("/") or with no '.' anywhere in it is
   * a directory with three links; anything else is a read-only regular file.
   */
  function Getattr(path: seq<char>): (st: Stat)
    ensures st.mode == DirMode <==> |path| == 1 || '.' !in path
    ensures st.mode == DirMode ==> st.nlink == 3
    ensures st.mode != DirMode ==> st == Stat(FileMode, 1)
  {
    if |path| == 1 then Stat(DirMode, 3)
    else if StrChr(path, '.').None? then Stat(DirMode, 3)
    else Stat(FileMode, 1)
  }

  /** A path that is empty or ends in '/' names a directory. */
  predicate IsDirPath(path: seq<char>)
  {
    |path| == 0 || path[|path| - 1] == '/'
  }

  /** `struct httpfs_file`: the resolved URL, the cached size (-1 while unknown) and is_dir. */
  class FileHandle {
    const url: seq<char>
    var size: int
    const isDir: bool

    constructor (url: seq<char>, isDir: bool)
      ensures this.url == url && size == -1 && this.isDir == isDir
    {
      this.url := url;
      size := -1;
      this.isDir := isDir;
    }
  }

  /**
   * httpfs_open: refuse anything but read-only access; otherwise a new handle
   * whose URL is the base URL followed by the path.  The fixed 512-byte URL
   * buffer is filled without a check, so the caller must keep the URL short.
   */
  method Open(baseUrl: seq<char>, path: seq<char>, flags: nat) returns (err: int, fh: FileHandle?)
    requires flags % (O_ACCMODE + 1) == O_RDONLY ==> |baseUrl| + |path| < UrlCapacity
    ensures flags % (O_ACCMODE + 1) != O_RDONLY ==> err == -EACCES && fh == null
    ensures flags % (O_ACCMODE + 1) == O_RDONLY ==>
              err == 0 && fh != null && fresh(fh) &&
              fh.url == baseUrl + path && fh.size == -1 && (fh.isDir <==> IsDirPath(path))
  {
    if flags % (O_ACCMODE + 1) != O_RDONLY {
      return -EACCES, null;
    }
    fh := new FileHandle(baseUrl + path, IsDirPath(path));
    err := 0;
  }

  /** What a read returns, the handle's cached size afterwards, and the bytes delivered. */
  datatype ReadOutcome = ReadOutcome(result: int, cachedSize: int, data: seq<char>)

  /** The length actually requested: `size`, cut to what is left of a known file. */
  function Clamp(cached: int, size: nat, offset: nat): (n: nat)
    requires cached == -1 || offset < cached
    ensures n <= size
    ensures cached != -1 ==> offset + n <= cached
    ensures cached == -1 || offset + size <= cached ==> n == size
    ensures cached != -1 && offset + size > cached ==> offset + n == cached
  {
    if cached != -1 && size > cached - offset then cached - offset else size
  }

  /**
   * httpfs_read on values.  A directory path fails with -EISDIR; a read at or
   * past a known size is end of file and fetches nothing; otherwise the
   * clamped range is fetched, any failure is -ENOENT, and a size still
   * unknown becomes the one the reply reported (which may itself be -1).
   */
  function ReadModel(path: seq<char>, url: seq<char>, cached: int, size: nat, offset: nat,
                     serve: Transport): (o: ReadOutcome)
    ensures o.result == -EISDIR <==> IsDirPath(path)
    ensures o.result < 0 ==> o.result in {-EISDIR, -ENOENT} && o.cachedSize == cached && o.data == []
    ensures o.result >= 0 ==> o.result == |o.data| <= size
    ensures cached != -1 ==> o.cachedSize == cached
    ensures cached != -1 && o.result >= 0 ==> offset + o.result <= cached || o.result == 0
    ensures !IsDirPath(path) && cached != -1 && offset >= cached ==> o == ReadOutcome(0, cached, [])
    ensures !IsDirPath(path) && (cached == -1 || offset < cached) ==>
              var n := Clamp(cached, size, offset);
              var f := FetchModel(serve(url, RangeText(offset, n)), n, Initial);
              (f.FetchFailed? <==> o.result == -ENOENT) &&
              (f.Fetched? ==> o.data == f.state.captured && (cached == -1 ==> o.cachedSize == f.state.remoteSize))
  {
    if IsDirPath(path) then ReadOutcome(-EISDIR, cached, [])
    else if cached != -1 && offset >= cached then ReadOutcome(0, cached, [])
    else
      var n := Clamp(cached, size, offset);
      match FetchModel(serve(url, RangeText(offset, n)), n, Initial)
      case FetchFailed => ReadOutcome(-ENOENT, cached, [])
      case Fetched(st) =>
        ReadOutcome(|st.captured|, if cached == -1 then st.remoteSize else cached, st.captured)
  }

  /**
   * httpfs_read: the reply goes straight into the caller's buffer.  On
   * success its first `res` bytes are the data read and nothing after them
   * changes; on failure at most the first `size` bytes may have been written.
   */
  method Read(path: seq<char>, buf: array<char>, size: nat, offset: nat, fh: FileHandle, serve: Transport)
    returns (res: int)
    requires size <= buf.Length
    modifies fh, buf
    ensures var o := ReadModel(path, fh.url, old(fh.size), size, offset, serve);
            res == o.result && fh.size == o.cachedSize && (res >= 0 ==> buf[..res] == o.data)
    ensures res >= 0 ==> forall i :: res <= i < buf.Length ==> buf[i] == old(buf[i])
    ensures forall i :: size <= i < buf.Length ==> buf[i] == old(buf[i])
  {
    if IsDirPath(path) {
      return -EISDIR;
    }
    var n := size;
    if fh.size != -1 {
      if offset >= fh.size {
        return 0;
      }
      if n > fh.size - offset {
        n := fh.size - offset;
      }
    }
    var hb := new ResponseBuffer(fh.url, buf, n);
    res := ReadCurlBuffer(n, offset, hb, serve);
    if res < 0 {
      return -ENOENT;
    }
    if fh.size == -1 {
      fh.size := hb.remoteSize;
    }
  }
}
