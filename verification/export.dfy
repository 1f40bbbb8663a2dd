/** `downloadLogo` of App.tsx (lines 94-113): the URL and file name the
    download link gets. Loading the data URL into an `Image`, drawing it on
    a canvas and reading its pixels back (`decode`), and `toDataURL`
    (`encode`) are browser plumbing and are parameters here; the DOM link,
    its click and the alert are left out, the alert's text being the
    failure value. */
module Export {
  import opened Wrappers
  import opened Types
  import opened Background
  import opened FileName

  const ExportFailedMessage := "There was an issue processing the image for download."

  datatype Download = Download(url: string, fileName: string)

  /** `removeBackground` (lines 59-92): decode, clear the near-white pixels
      with the source's threshold, encode. A decode failure rejects. */
  function RemoveBackgroundUrl(dataUrl: string, decode: string -> Result<ImageData, string>,
                               encode: ImageData -> string): (r: Result<string, string>)
    ensures decode(dataUrl).Failure? ==> r.Failure?
    ensures decode(dataUrl).Success? ==> r == Success(encode(RemoveBackground(decode(dataUrl).value, Threshold)))
  {
    match decode(dataUrl)
    case Failure(reason) => Failure(reason)
    case Success(img) => Success(encode(RemoveBackground(img, Threshold)))
  }

  /** The opaque export hands over the stored image URL untouched; only the
      transparent export goes through background removal, and a failure
      there becomes the alert. The file name follows the brand name and
      the variant either way. */
  function DownloadLogo(logo: GeneratedLogo, transparent: bool,
                        decode: string -> Result<ImageData, string>,
                        encode: ImageData -> string): (r: Result<Download, string>)
    ensures !transparent ==> r == Success(Download(logo.imageUrl, DownloadName(logo.request.brandName, false)))
    ensures transparent && decode(logo.imageUrl).Failure? ==> r == Failure(ExportFailedMessage)
    ensures transparent && decode(logo.imageUrl).Success? ==>
      r == Success(Download(encode(RemoveBackground(decode(logo.imageUrl).value, Threshold)),
                            DownloadName(logo.request.brandName, true)))
  {
    var finalUrl := if transparent then RemoveBackgroundUrl(logo.imageUrl, decode, encode) else Success(logo.imageUrl);
    match finalUrl
    case Failure(_) => Failure(ExportFailedMessage)
    case Success(url) => Success(Download(url, DownloadName(logo.request.brandName, transparent)))
  }

  /** The opaque export never looks at the image: any decoder and encoder
      give the same download. */
  lemma OpaqueExportIgnoresCodec(logo: GeneratedLogo,
                                 decode1: string -> Result<ImageData, string>, encode1: ImageData -> string,
                                 decode2: string -> Result<ImageData, string>, encode2: ImageData -> string)
    ensures DownloadLogo(logo, false, decode1, encode1) == DownloadLogo(logo, false, decode2, encode2)
  {
  }
}
