/** Concrete `docker ps` columns and what the transformers make of them. */
module Samples {
  import opened Wrappers
  import opened Text
  import opened Transformers

  lemma StatusExamples()
    ensures FormatStatus(Some("Up 2 hours")) == Running
    ensures FormatStatus(Some("Exited (0) 3 minutes ago")) == Exited
    ensures FormatStatus(Some("Created")) == Pending
    ensures FormatStatus(None) == Pending
  {
    assert OccursAt("Up 2 hours", "Up", 0);
    assert OccursAt("Exited (0) 3 minutes ago", "Exit", 0);
    NotOccurs("Exited (0) 3 minutes ago", "Up");
    NotOccurs("Created", "Up");
    NotOccurs("Created", "Exit");
  }

  lemma PortExamples()
    ensures FormatPort(Some("0.0.0.0:9999->8888/tcp")) == Some("9999")
    ensures FormatPort(Some("")) == None
  {
    FormatPortReadsPublishedPort("0.0.0.0", "9999", "8888/tcp");
    assert "0.0.0.0" + ":" + "9999" + "->" + "8888/tcp" == "0.0.0.0:9999->8888/tcp";
  }

  /**
   * When no container matches, 'getKernel' still answers with a record: an
   * empty id, `pending`, the requested image and no port.
   */
  lemma NoContainerExample(image: string)
    ensures KernelOf("", image) == KernelRecord("", Pending, Some(image), None)
  {
  }

  // The two-line listing below is written column by column: a long string
  // literal would make the verifier evaluate the split functions on it letter
  // by letter.

  /** The first line of the listing: a running container with a published port. */
  lemma ListingFirstLine()
    ensures ListedKernel("id1" + "|" + ("Up 1 min" + "|" + ("imgA" + "|" + ("0.0.0.0" + ":" + "9999" + "->" + "8888/tcp"))))
      == KernelRecord("id1", Running, Some("imgA"), Some("9999"))
  {
    assert OccursAt("Up 1 min", "Up", 0);
    assert FormatStatus(Some("Up 1 min")) == Running;
    FormatPortReadsPublishedPort("0.0.0.0", "9999", "8888/tcp");
    assert FormatPort(Some("0.0.0.0" + ":" + "9999" + "->" + "8888/tcp")) == Some("9999");
    ListedKernelOfColumns("id1", "Up 1 min", "imgA", "0.0.0.0" + ":" + "9999" + "->" + "8888/tcp");
  }

  /** The second line: an exited container with an empty ports column. */
  lemma ListingSecondLine()
    ensures ListedKernel("id2" + "|" + ("Exited (1)" + "|" + ("imgB" + "|" + "")))
      == KernelRecord("id2", Exited, Some("imgB"), None)
  {
    assert OccursAt("Exited (1)", "Exit", 0);
    NotOccurs("Exited (1)", "Up");
    ListedKernelOfColumns("id2", "Exited (1)", "imgB", "");
  }

  /** Two non-empty lines, each ended by a newline, give two records in order. */
  lemma TwoLineListing(l1: string, l2: string)
    requires l1 != [] && l2 != [] && '\n' !in l1 && '\n' !in l2
    ensures KernelsOf(l1 + "\n" + l2 + "\n") == [ListedKernel(l1), ListedKernel(l2)]
  {
    KernelsOfTrailingNewline(l1 + "\n" + l2);
    KernelsOfLines(l1, l2);
    KernelsOfLine(l1);
    KernelsOfLine(l2);
  }

  /**
   * `id1|Up 1 min|imgA|0.0.0.0:9999->8888/tcp` and `id2|Exited (1)|imgB|`,
   * each followed by a newline, list a running and an exited kernel.
   */
  lemma ListingExample()
    ensures KernelsOf(("id1" + "|" + ("Up 1 min" + "|" + ("imgA" + "|" + ("0.0.0.0" + ":" + "9999" + "->" + "8888/tcp"))))
                      + "\n" + ("id2" + "|" + ("Exited (1)" + "|" + ("imgB" + "|" + ""))) + "\n")
      == [KernelRecord("id1", Running, Some("imgA"), Some("9999")),
          KernelRecord("id2", Exited, Some("imgB"), None)]
  {
    var l1 := "id1" + "|" + ("Up 1 min" + "|" + ("imgA" + "|" + ("0.0.0.0" + ":" + "9999" + "->" + "8888/tcp")));
    var l2 := "id2" + "|" + ("Exited (1)" + "|" + ("imgB" + "|" + ""));
    assert l1 != [] && l2 != [];
    assert '\n' !in l1;
    assert '\n' !in l2;
    TwoLineListing(l1, l2);
    ListingFirstLine();
    ListingSecondLine();
  }
}
