/** Paths of documents below the rag-documents root. */
module Paths {
  import opened Text

  /** `dir` are the directories above the file; the file name is `stem + suffix`, where a non-empty
      suffix starts at the last dot. */
  datatype DocPath = DocPath(dir: seq<string>, stem: string, suffix: string)

  function Category(p: DocPath): string {
    Join("/", p.dir)
  }

  /** `path.with_suffix(".md.bak")`: the last suffix is replaced, so the new name ends in ".bak". */
  function BackupName(p: DocPath): DocPath {
    DocPath(p.dir, p.stem + ".md", ".bak")
  }

  /** `path.with_suffix(".md.deleted")` */
  function DeletedName(p: DocPath): DocPath {
    DocPath(p.dir, p.stem + ".md", ".deleted")
  }

  /** The document "a/b.md" has the category "a" and is kept as "a/b.md.bak" and "a/b.md.deleted". */
  lemma NamesExact(p: DocPath)
    ensures Category(p) == Join("/", p.dir)
    ensures BackupName(p).dir == p.dir && BackupName(p).stem + BackupName(p).suffix == p.stem + ".md.bak"
    ensures DeletedName(p).dir == p.dir && DeletedName(p).stem + DeletedName(p).suffix == p.stem + ".md.deleted"
  {
    ConcatAssoc(p.stem, ".md", ".bak");
    ConcatAssoc(p.stem, ".md", ".deleted");
  }

  lemma BackupNamesDiffer(p: DocPath)
    ensures BackupName(p) != p && DeletedName(p) != p && BackupName(p) != DeletedName(p)
  {
    assert |p.stem + ".md"| != |p.stem|;
  }
}
