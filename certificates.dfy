/** Certificates about the sample catalog's text: for each title and author
    list, lower-case letters and adjacent lower-case pairs it does not have.
    Each is checked one short piece at a time and the pieces are joined with
    `LacksLowerAppend`. */
module SampleCertificates {
  import opened Text
  import opened Articles

  lemma Article1TitlePiece0()
    ensures LacksLower("The Impact of ", {'z'}, {('c', 'l'), ('s', 'm')})
  {
  }

  lemma Article1TitlePiece1()
    ensures LacksLower("Machine Learning", {'z'}, {('c', 'l'), ('s', 'm')})
  {
  }

  lemma Article1TitlePiece2()
    ensures LacksLower(" on Healthcare", {'z'}, {('c', 'l'), ('s', 'm')})
  {
  }

  lemma Article1TitlePiece3()
    ensures LacksLower(" Diagnostics", {'z'}, {('c', 'l'), ('s', 'm')})
  {
  }

  /** The title of record 1, lower-cased, has no 'z', and no adjacent "cl" or "sm". */
  lemma Article1TitleLacks()
    ensures LacksLower(Article1.title, {'z'}, {('c', 'l'), ('s', 'm')})
  {
    Article1TitlePiece0();
    Article1TitlePiece1();
    Article1TitlePiece2();
    Article1TitlePiece3();
    LacksLowerAppend("The Impact of ", "Machine Learning", {'z'}, {('c', 'l'), ('s', 'm')});
    LacksLowerAppend("The Impact of " + "Machine Learning", " on Healthcare", {'z'}, {('c', 'l'), ('s', 'm')});
    LacksLowerAppend("The Impact of " + "Machine Learning" + " on Healthcare", " Diagnostics", {'z'}, {('c', 'l'), ('s', 'm')});
  }

  lemma Article1AuthorsPiece0()
    ensures LacksLower("Smith, J., ", {'c', 'z'}, {})
  {
  }

  lemma Article1AuthorsPiece1()
    ensures LacksLower("Johnson, A., ", {'c', 'z'}, {})
  {
  }

  lemma Article1AuthorsPiece2()
    ensures LacksLower("& Brown, R.", {'c', 'z'}, {})
  {
  }

  /** The author list of record 1, lower-cased, has no 'c' or 'z'. */
  lemma Article1AuthorsLacks()
    ensures LacksLower(Article1.authors, {'c', 'z'}, {})
  {
    Article1AuthorsPiece0();
    Article1AuthorsPiece1();
    Article1AuthorsPiece2();
    LacksLowerAppend("Smith, J., ", "Johnson, A., ", {'c', 'z'}, {});
    LacksLowerAppend("Smith, J., " + "Johnson, A., ", "& Brown, R.", {'c', 'z'}, {});
  }

  lemma Article2TitlePiece0()
    ensures LacksLower("Climate Change ", {'z'}, {('s', 'm')})
  {
  }

  lemma Article2TitlePiece1()
    ensures LacksLower("Effects on ", {'z'}, {('s', 'm')})
  {
  }

  lemma Article2TitlePiece2()
    ensures LacksLower("Marine ", {'z'}, {('s', 'm')})
  {
  }

  lemma Article2TitlePiece3()
    ensures LacksLower("Biodiversity", {'z'}, {('s', 'm')})
  {
  }

  /** The title of record 2, lower-cased, has no 'z', and no adjacent "sm". */
  lemma Article2TitleLacks()
    ensures LacksLower(Article2.title, {'z'}, {('s', 'm')})
  {
    Article2TitlePiece0();
    Article2TitlePiece1();
    Article2TitlePiece2();
    Article2TitlePiece3();
    LacksLowerAppend("Climate Change ", "Effects on ", {'z'}, {('s', 'm')});
    LacksLowerAppend("Climate Change " + "Effects on ", "Marine ", {'z'}, {('s', 'm')});
    LacksLowerAppend("Climate Change " + "Effects on " + "Marine ", "Biodiversity", {'z'}, {('s', 'm')});
  }

  lemma Article2AuthorsPiece0()
    ensures LacksLower("Garcia, M., ", {'t', 'z'}, {})
  {
  }

  lemma Article2AuthorsPiece1()
    ensures LacksLower("Lee, S., ", {'t', 'z'}, {})
  {
  }

  lemma Article2AuthorsPiece2()
    ensures LacksLower("& Chen, W.", {'t', 'z'}, {})
  {
  }

  /** The author list of record 2, lower-cased, has no 't' or 'z'. */
  lemma Article2AuthorsLacks()
    ensures LacksLower(Article2.authors, {'t', 'z'}, {})
  {
    Article2AuthorsPiece0();
    Article2AuthorsPiece1();
    Article2AuthorsPiece2();
    LacksLowerAppend("Garcia, M., ", "Lee, S., ", {'t', 'z'}, {});
    LacksLowerAppend("Garcia, M., " + "Lee, S., ", "& Chen, W.", {'t', 'z'}, {});
  }

  lemma Article3TitlePiece0()
    ensures LacksLower("Social Media ", {'z'}, {('c', 'l'), ('s', 'm')})
  {
  }

  lemma Article3TitlePiece1()
    ensures LacksLower("Usage and ", {'z'}, {('c', 'l'), ('s', 'm')})
  {
  }

  lemma Article3TitlePiece2()
    ensures LacksLower("Mental Health ", {'z'}, {('c', 'l'), ('s', 'm')})
  {
  }

  lemma Article3TitlePiece3()
    ensures LacksLower("in Adolescents", {'z'}, {('c', 'l'), ('s', 'm')})
  {
  }

  /** The title of record 3, lower-cased, has no 'z', and no adjacent "cl" or "sm". */
  lemma Article3TitleLacks()
    ensures LacksLower(Article3.title, {'z'}, {('c', 'l'), ('s', 'm')})
  {
    Article3TitlePiece0();
    Article3TitlePiece1();
    Article3TitlePiece2();
    Article3TitlePiece3();
    LacksLowerAppend("Social Media ", "Usage and ", {'z'}, {('c', 'l'), ('s', 'm')});
    LacksLowerAppend("Social Media " + "Usage and ", "Mental Health ", {'z'}, {('c', 'l'), ('s', 'm')});
    LacksLowerAppend("Social Media " + "Usage and " + "Mental Health ", "in Adolescents", {'z'}, {('c', 'l'), ('s', 'm')});
  }

  lemma Article3AuthorsPiece0()
    ensures LacksLower("Thompson, K., ", {'c'}, {('s', 'm'), ('z', 'z')})
  {
  }

  lemma Article3AuthorsPiece1()
    ensures LacksLower("& Rodriguez", {'c'}, {('s', 'm'), ('z', 'z')})
  {
  }

  lemma Article3AuthorsPiece2()
    ensures LacksLower(", L.", {'c'}, {('s', 'm'), ('z', 'z')})
  {
  }

  /** The author list of record 3, lower-cased, has no 'c', and no adjacent "sm" or "zz". */
  lemma Article3AuthorsLacks()
    ensures LacksLower(Article3.authors, {'c'}, {('s', 'm'), ('z', 'z')})
  {
    Article3AuthorsPiece0();
    Article3AuthorsPiece1();
    Article3AuthorsPiece2();
    LacksLowerAppend("Thompson, K., ", "& Rodriguez", {'c'}, {('s', 'm'), ('z', 'z')});
    LacksLowerAppend("Thompson, K., " + "& Rodriguez", ", L.", {'c'}, {('s', 'm'), ('z', 'z')});
  }

  lemma Article4TitlePiece0()
    ensures LacksLower("Quantum ", {'e', 'z'}, {('s', 'm')})
  {
  }

  lemma Article4TitlePiece1()
    ensures LacksLower("Computing ", {'e', 'z'}, {('s', 'm')})
  {
  }

  lemma Article4TitlePiece2()
    ensures LacksLower("Applications ", {'e', 'z'}, {('s', 'm')})
  {
  }

  lemma Article4TitlePiece3()
    ensures LacksLower("in Cryptography", {'e', 'z'}, {('s', 'm')})
  {
  }

  /** The title of record 4, lower-cased, has no 'e' or 'z', and no adjacent "sm". */
  lemma Article4TitleLacks()
    ensures LacksLower(Article4.title, {'e', 'z'}, {('s', 'm')})
  {
    Article4TitlePiece0();
    Article4TitlePiece1();
    Article4TitlePiece2();
    Article4TitlePiece3();
    LacksLowerAppend("Quantum ", "Computing ", {'e', 'z'}, {('s', 'm')});
    LacksLowerAppend("Quantum " + "Computing ", "Applications ", {'e', 'z'}, {('s', 'm')});
    LacksLowerAppend("Quantum " + "Computing " + "Applications ", "in Cryptography", {'e', 'z'}, {('s', 'm')});
  }

  lemma Article4AuthorsPiece0()
    ensures LacksLower("Zhang, Q., ", {'c', 's'}, {('z', 'z')})
  {
  }

  lemma Article4AuthorsPiece1()
    ensures LacksLower("Mueller, H., ", {'c', 's'}, {('z', 'z')})
  {
  }

  lemma Article4AuthorsPiece2()
    ensures LacksLower("& Patel, N.", {'c', 's'}, {('z', 'z')})
  {
  }

  /** The author list of record 4, lower-cased, has no 'c' or 's', and no adjacent "zz". */
  lemma Article4AuthorsLacks()
    ensures LacksLower(Article4.authors, {'c', 's'}, {('z', 'z')})
  {
    Article4AuthorsPiece0();
    Article4AuthorsPiece1();
    Article4AuthorsPiece2();
    LacksLowerAppend("Zhang, Q., ", "Mueller, H., ", {'c', 's'}, {('z', 'z')});
    LacksLowerAppend("Zhang, Q., " + "Mueller, H., ", "& Patel, N.", {'c', 's'}, {('z', 'z')});
  }

  lemma Article5TitlePiece0()
    ensures LacksLower("Urban Green ", {'h', 'z'}, {('c', 'l')})
  {
  }

  lemma Article5TitlePiece1()
    ensures LacksLower("Spaces and ", {'h', 'z'}, {('c', 'l')})
  {
  }

  lemma Article5TitlePiece2()
    ensures LacksLower("Community ", {'h', 'z'}, {('c', 'l')})
  {
  }

  lemma Article5TitlePiece3()
    ensures LacksLower("Well-being", {'h', 'z'}, {('c', 'l')})
  {
  }

  /** The title of record 5, lower-cased, has no 'h' or 'z', and no adjacent "cl". */
  lemma Article5TitleLacks()
    ensures LacksLower(Article5.title, {'h', 'z'}, {('c', 'l')})
  {
    Article5TitlePiece0();
    Article5TitlePiece1();
    Article5TitlePiece2();
    Article5TitlePiece3();
    LacksLowerAppend("Urban Green ", "Spaces and ", {'h', 'z'}, {('c', 'l')});
    LacksLowerAppend("Urban Green " + "Spaces and ", "Community ", {'h', 'z'}, {('c', 'l')});
    LacksLowerAppend("Urban Green " + "Spaces and " + "Community ", "Well-being", {'h', 'z'}, {('c', 'l')});
  }

  lemma Article5AuthorsPiece0()
    ensures LacksLower("Anderson, P., ", {'c', 'h', 'z'}, {})
  {
  }

  lemma Article5AuthorsPiece1()
    ensures LacksLower("& Williams, T.", {'c', 'h', 'z'}, {})
  {
  }

  /** The author list of record 5, lower-cased, has no 'c' or 'h' or 'z'. */
  lemma Article5AuthorsLacks()
    ensures LacksLower(Article5.authors, {'c', 'h', 'z'}, {})
  {
    Article5AuthorsPiece0();
    Article5AuthorsPiece1();
    LacksLowerAppend("Anderson, P., ", "& Williams, T.", {'c', 'h', 'z'}, {});
  }

}
