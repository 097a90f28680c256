/** The observable effects of the merger: exceptions it raises and the
    calls it makes into the GUI toolkit and the PDF library. */
module Effects {

  /** Python's `ValueError`, the only exception the core raises itself. */
  datatype Error = ValueError(message: string)

  /** One externally visible step, in the order it happens. */
  datatype Action =
    | ShowMessage(title: string, text: string)  // a modal message box
    | AskSavePath                               // the save dialog is shown
    | Append(path: string)                      // PdfMerger.append
    | Write(path: string)                       // PdfMerger.write
    | Close                                     // PdfMerger.close
}
