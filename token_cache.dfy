/** The token cache of `internal/auth/token_cache.go`: one token, kept as
    JSON in the file at `filePath`. The file system is a class holding a
    map from paths to files, with the paths where reading or writing
    fails for a reason other than a missing file. */
module Cache {
  import opened Wrappers
  import opened SchemaJson
  import Tokens
  import Json

  /** A file's text and its permission bits. */
  datatype File = File(data: string, mode: int)

  /** Permission bits 0600: read and write for the owner only. */
  const OwnerOnly := 0x180

  /** How `os.ReadFile` fails: the file does not exist, or it cannot be read. */
  datatype ReadError = NotExist | ReadFailed

  class FileStore {
    var files: map<string, File>
    /** Existing paths that cannot be read (permissions, I/O errors). */
    var unreadable: set<string>
    /** Paths that cannot be written (no such directory, permissions, a
        full disk). */
    var unwritable: set<string>

    constructor (files: map<string, File>, unreadable: set<string>, unwritable: set<string>)
      ensures this.files == files && this.unreadable == unreadable && this.unwritable == unwritable
    {
      this.files := files;
      this.unreadable := unreadable;
      this.unwritable := unwritable;
    }

    /** `os.ReadFile`: a missing file is `NotExist`. */
    method ReadFile(path: string) returns (r: Result<string, ReadError>)
      ensures r == ReadResult(files, unreadable, path)
    {
      if path !in files {
        return Err(NotExist);
      }
      if path in unreadable {
        return Err(ReadFailed);
      }
      return Ok(files[path].data);
    }

    /** `os.WriteFile(path, data, perm)`: the file's whole text becomes
        `data`; `perm` applies only to a file the call creates. A write that
        fails leaves the files as they were. */
    method WriteFile(path: string, data: string, perm: int) returns (ok: bool)
      modifies this
      ensures ok == (path !in old(unwritable))
      ensures files == WrittenFiles(old(files), old(unwritable), path, data, perm)
      ensures unreadable == old(unreadable) && unwritable == old(unwritable)
    {
      if path in unwritable {
        return false;
      }
      var mode := if path in files then files[path].mode else perm;
      files := files[path := File(data, mode)];
      return true;
    }
  }

  /** What `os.ReadFile(path)` gives on the files `files`. */
  function ReadResult(files: map<string, File>, unreadable: set<string>, path: string): Result<string, ReadError> {
    if path !in files then Err(NotExist)
    else if path in unreadable then Err(ReadFailed)
    else Ok(files[path].data)
  }

  /** The files after `os.WriteFile(path, data, perm)`. */
  function WrittenFiles(files: map<string, File>, unwritable: set<string>, path: string, data: string, perm: int): map<string, File> {
    if path in unwritable then files
    else files[path := File(data, if path in files then files[path].mode else perm)]
  }

  /** Why `Save` fails: the token has no JSON form, or the write failed. */
  datatype SaveError = MarshalFailed(cause: EncodeError) | WriteFailed

  /** Why `Load` fails: the error of `os.ReadFile` as it is, or text that
      is not a token. */
  datatype LoadError = ReadError(reason: ReadError) | UnmarshalFailed(cause: DecodeError)

  /** `Load`'s error is `os.IsNotExist`. */
  predicate IsNotExist(e: LoadError) {
    e == ReadError(NotExist)
  }

  /** What `Save` reports for `token`. */
  function SaveResult(unwritable: set<string>, path: string, token: Tokens.Token): Result<(), SaveError> {
    match Tokens.MarshalToken(token)
    case Err(e) => Err(MarshalFailed(e))
    case Ok(_) => if path in unwritable then Err(WriteFailed) else Ok(())
  }

  /** The files after `Save` of `token`. */
  function SavedFiles(files: map<string, File>, unwritable: set<string>, path: string, token: Tokens.Token): map<string, File> {
    match Tokens.MarshalToken(token)
    case Err(_) => files
    case Ok(data) => WrittenFiles(files, unwritable, path, data, OwnerOnly)
  }

  /** What `Load` gives on the files `files`. */
  function LoadResult(files: map<string, File>, unreadable: set<string>, path: string): Result<Tokens.Token, LoadError> {
    match ReadResult(files, unreadable, path)
    case Err(e) => Err(ReadError(e))
    case Ok(data) =>
      match Tokens.UnmarshalToken(data)
      case Err(e) => Err(UnmarshalFailed(e))
      case Ok(t) => Ok(t)
  }

  class TokenCache {
    const filePath: string
    /** The file system the cache file lives in. */
    const store: FileStore

    constructor (filePath: string, store: FileStore)
      ensures this.filePath == filePath && this.store == store
    {
      this.filePath := filePath;
      this.store := store;
    }

    /** `Save`: marshals the token and writes it to the cache file with
        mode 0600. */
    method Save(token: Tokens.Token) returns (r: Result<(), SaveError>)
      modifies store
      ensures r == SaveResult(old(store.unwritable), filePath, token)
      ensures store.files == SavedFiles(old(store.files), old(store.unwritable), filePath, token)
      ensures store.unreadable == old(store.unreadable) && store.unwritable == old(store.unwritable)
    {
      var data := Tokens.MarshalToken(token);
      if data.Err? {
        return Err(MarshalFailed(data.error));
      }
      var ok := store.WriteFile(filePath, data.value, OwnerOnly);
      if !ok {
        return Err(WriteFailed);
      }
      return Ok(());
    }

    /** `Load`: reads the cache file and unmarshals it; a read error is
        passed on as it is, so that a caller can tell a missing file. */
    method Load() returns (r: Result<Tokens.Token, LoadError>)
      ensures r == LoadResult(store.files, store.unreadable, filePath)
    {
      var data := store.ReadFile(filePath);
      if data.Err? {
        return Err(ReadError(data.error));
      }
      var token := Tokens.UnmarshalToken(data.value);
      if token.Err? {
        return Err(UnmarshalFailed(token.error));
      }
      return Ok(token.value);
    }
  }

  /** `Save` then `Load` on the same path gives back the token saved, when
      the path can be written and read and the expiry can be written. */
  lemma SaveThenLoad(files: map<string, File>, unreadable: set<string>, unwritable: set<string>,
                     path: string, token: Tokens.Token)
    requires Portable(token.expiry) && path !in unwritable && path !in unreadable
    ensures SaveResult(unwritable, path, token) == Ok(())
    ensures LoadResult(SavedFiles(files, unwritable, path, token), unreadable, path) == Ok(token)
  {
    Tokens.TokenRoundTrip(token);
  }

  /** `Save` replaces the whole file with the one token and touches no
      other file; a file it creates gets mode 0600, an existing one keeps
      its mode; a write that fails is reported and changes nothing. */
  lemma SaveReplaces(files: map<string, File>, unwritable: set<string>, path: string, token: Tokens.Token)
    requires Tokens.MarshalToken(token).Ok?
    ensures var after := SavedFiles(files, unwritable, path, token);
      && (path !in unwritable ==> path in after && after[path].data == Tokens.MarshalToken(token).value)
      && (path !in unwritable && path !in files ==> after[path].mode == OwnerOnly)
      && (path !in unwritable && path in files ==> after[path].mode == files[path].mode)
      && (forall p :: p != path ==> (p in after <==> p in files) && (p in files ==> after[p] == files[p]))
      && (path in unwritable ==> after == files && SaveResult(unwritable, path, token) == Err(WriteFailed))
  {
  }

  /** The not-found error comes exactly from a missing file; text that is
      not JSON is a different error. */
  lemma LoadErrors(files: map<string, File>, unreadable: set<string>, path: string)
    ensures LoadResult(files, unreadable, path).Err? && IsNotExist(LoadResult(files, unreadable, path).error)
            <==> path !in files
    ensures path in files && path !in unreadable && Json.Read(files[path].data).None?
            ==> LoadResult(files, unreadable, path) == Err(UnmarshalFailed(SyntaxError))
  {
  }
}
