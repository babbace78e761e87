/**
 * The placeholder parsers: each binds one key and turns content into
 * content. `ParamParser` and `ConfigParser` carry their replacement value;
 * `FileParser` reads it from a file on its first use and keeps it.
 */
module Parsers {
  import opened Wrappers
  import opened Strings
  import opened ParserBase

  /**
   * The parsers whose value is given up front. Both carry the object they
   * were created for (`config`), their key and their value, and parse alike.
   */
  datatype ValueParser =
    | ParamParser(config: object, key: string, value: string)
    | ConfigParser(config: object, key: string, value: string)
  {
    /**
     * Every occurrence of `{{key}}` in `content` becomes `value`: the content
     * is cut at each token and glued back with the value, and content
     * without the token comes back unchanged.
     */
    function Parse(content: string): (r: string)
      ensures r == Join(Split(content, TemplateKey(key)), value)
      ensures !Contains(content, TemplateKey(key)) ==> r == content
    {
      ReplaceAllIsJoinOfSplit(content, TemplateKey(key), value);
      ReplaceAbsentIsIdentity(content, TemplateKey(key), value);
      ReplaceAll(content, TemplateKey(key), value)
    }
  }

  /** The failure of opening a file that is not there. */
  datatype IOError = FileNotFound(path: string)

  /**
   * A parser whose value is the text of the file at `path`. `value` starts
   * unset and caches the text once the file has been read; `readCount` counts
   * the reads.
   */
  class FileParser {
    const config: object
    const key: string
    const path: string
    var value: Option<string>
    ghost var readCount: nat

    /** The file has been read exactly when the text is cached. */
    ghost predicate Valid()
      reads this
    {
      readCount == (if value.Some? then 1 else 0)
    }

    constructor (config: object, key: string, path: string)
      ensures Valid()
      ensures this.config == config && this.key == key && this.path == path
      ensures value == None
    {
      this.config := config;
      this.key := key;
      this.path := path;
      value := None;
      readCount := 0;
    }

    /**
     * Before the text is cached: read the file at `path` in `disk`, cache its
     * text and return `content` with every `{{key}}` replaced by it, or fail
     * when the file is missing. Once cached: return the cached text itself,
     * whatever `content` is, without reading again.
     */
    method Parse(content: string, disk: map<string, string>) returns (r: Result<string, IOError>)
      requires Valid()
      modifies this
      ensures Valid() && readCount <= 1
      ensures old(value).Some? ==> r == Success(old(value).value) && value == old(value)
      ensures old(value).None? && path in disk ==>
        && value == Some(disk[path])
        && r == Success(Join(Split(content, TemplateKey(key)), disk[path]))
      ensures old(value).None? && path in disk && !Contains(content, TemplateKey(key)) ==> r == Success(content)
      ensures old(value).None? && path !in disk ==> r == Failure(FileNotFound(path)) && value == None
    {
      if value.Some? {
        return Success(value.value);
      }
      if path !in disk {
        return Failure(FileNotFound(path));
      }
      value := Some(disk[path]);
      readCount := readCount + 1;
      ReplaceAllIsJoinOfSplit(content, TemplateKey(key), value.value);
      ReplaceAbsentIsIdentity(content, TemplateKey(key), value.value);
      r := Success(ReplaceAll(content, TemplateKey(key), value.value));
    }
  }

  /** Any parser of the registry. */
  datatype Parser = Value(p: ValueParser) | File(f: FileParser)

  /** The one capability every parser has: content in, content out. */
  method Parse(parser: Parser, content: string, disk: map<string, string>) returns (r: Result<string, IOError>)
    requires parser.File? ==> parser.f.Valid()
    modifies if parser.File? then {parser.f} else {}
    ensures parser.Value? ==> r == Success(parser.p.Parse(content))
    ensures parser.File? ==> parser.f.Valid()
    ensures parser.File? && old(parser.f.value).Some? ==>
      && r == Success(old(parser.f.value).value)
      && parser.f.value == old(parser.f.value)
    ensures parser.File? && old(parser.f.value).None? && parser.f.path in disk ==>
      && r == Success(Join(Split(content, TemplateKey(parser.f.key)), disk[parser.f.path]))
      && parser.f.value == Some(disk[parser.f.path])
    ensures parser.File? && old(parser.f.value).None? && parser.f.path !in disk ==>
      && r == Failure(FileNotFound(parser.f.path))
      && parser.f.value == None
  {
    match parser
    case Value(p) =>
      r := Success(p.Parse(content));
    case File(f) =>
      r := f.Parse(content, disk);
  }

  /**
   * Text without braces followed by the token: the token is replaced and the
   * text is kept.
   */
  lemma {:induction false} ValueParserReplacesTrailingToken(p: ValueParser, text: string)
    requires '{' !in text
    ensures p.Parse(text + TemplateKey(p.key)) == text + p.value
  {
    var token := TemplateKey(p.key);
    assert token[0] == '{';
    ReplaceAllSkipsLiteralRun(text, token, token, p.value);
    assert token[|token|..] == [];
  }
}
